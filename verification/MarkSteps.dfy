/**
 The single steps of the marker and of the write barrier, as functions on the
 marking state; a push that the mark stack refuses is the argument `ok`.  The
 lemmas say what each step keeps.
 */
module MarkSteps {
  import opened MarkState

  /** The part of the invariant that every marker step keeps, flag or no flag. */
  ghost predicate Sound(g: Graph, m: Marks, allowed: set<Obj>) {
    GraphOk(g, m.bits) && StacksOk(g, m) && Confined(g, m.bits, allowed) && forall o :: o in m.again ==> o in allowed
  }

  ghost predicate OnlyObjects(inc: seq<Item>) {
    forall i :: 0 <= i < |inc| ==> inc[i].GCObject?
  }

  // ----- tracing one pointer -----

  /** Push_GCObject on an object just made gray: when refused, it turns white again and the flag goes up. */
  function PushGCObject(m: Marks, o: Obj, ok: bool): Marks
    requires o in m.bits
  {
    if ok then m.(inc := m.inc + [GCObject(o)])
    else m.(bits := m.bits[o := m.bits[o].(queued := false)], overflow := true)
  }

  function TracePointer(g: Graph, m: Marks, o: Obj, ok: bool): Marks
    requires o == NULL || o in m.bits
  {
    if o == NULL || !m.bits[o].White() then m
    else if o in g.pointerful then PushGCObject(m.(bits := m.bits[o := QUEUED]), o, ok)
    else m.(bits := m.bits[o := BLACK])
  }

  /** What any amount of tracing does: bits only darken, work is only added, and the flag needs a reason. */
  ghost predicate Traced(m: Marks, m': Marks) {
    && Darker(m.bits, m'.bits)
    && m.inc <= m'.inc
    && m.bar == m'.bar
    && m'.resurrected == m.resurrected && m'.again == m.again
    && (m.overflow ==> m'.overflow)
    && (m'.overflow && !m.overflow ==> m'.inc != [])
  }

  lemma TracedTransitive(a: Marks, b: Marks, c: Marks)
    requires Traced(a, b) && Traced(b, c)
    ensures Traced(a, c)
  {
    DarkerTransitive(a.bits, b.bits, c.bits);
  }

  lemma GraphOkDarker(g: Graph, a: map<Obj, Bits>, b: map<Obj, Bits>)
    requires GraphOk(g, a) && Darker(a, b)
    ensures GraphOk(g, b)
  {
    forall o | o in b && (o !in g.pointerful || b[o].Free()) ensures PointersIn(g.fields[o], {}) {
      assert DarkerBits(a[o], b[o]);
    }
  }

  lemma ConfinedSet(g: Graph, bits: map<Obj, Bits>, allowed: set<Obj>, o: Obj, b: Bits)
    requires Confined(g, bits, allowed) && (o in allowed || b.White() || b.Free())
    ensures Confined(g, bits[o := b], allowed)
  {
  }

  lemma OccurrencesPush(m: Marks, o: Obj, x: Obj)
    requires o in m.bits
    ensures Occurrences(m.(bits := m.bits[o := QUEUED], inc := m.inc + [GCObject(o)]), x)
         == Occurrences(m, x) + if x == o then 1 else 0
  {
  }

  /** One more occurrence, of an object that has just been queued. */
  lemma CountsPush(m: Marks, m': Marks, o: Obj)
    requires CountsOk(m) && o in m.bits && m.bits[o].White() && m'.bits == m.bits[o := QUEUED] && m'.again == m.again
    requires forall x :: x in m.bits ==> Occurrences(m', x) == Occurrences(m, x) + if x == o then 1 else 0
    ensures CountsOk(m')
  {
    hide Occurrences;
    forall x | x in m'.bits ensures Occurrences(m', x) == (if m'.bits[x].Queued() then 1 else 0) + m'.again[x] {
      assert Occurrences(m, x) == (if m.bits[x].Queued() then 1 else 0) + m.again[x];
    }
  }

  lemma CountsPushed(m: Marks, o: Obj)
    requires CountsOk(m) && o in m.bits && m.bits[o].White()
    ensures CountsOk(m.(bits := m.bits[o := QUEUED], inc := m.inc + [GCObject(o)]))
    ensures CountsOk(m.(bits := m.bits[o := QUEUED], bar := m.bar + [o]))
  {
    hide CountsOk;
    var m' := m.(bits := m.bits[o := QUEUED], inc := m.inc + [GCObject(o)]);
    forall x | x in m.bits
      ensures Occurrences(m', x) == Occurrences(m, x) + if x == o then 1 else 0
    {
      OccurrencesPush(m, o, x);
    }
    CountsPush(m, m', o);
    CountsPush(m, m.(bits := m.bits[o := QUEUED], bar := m.bar + [o]), o);
  }

  lemma StacksPush(g: Graph, m: Marks, o: Obj)
    requires StacksOk(g, m) && o in m.bits && m.bits[o].White() && o in g.pointerful && OnlyObjects(m.inc)
    ensures StacksOk(g, m.(bits := m.bits[o := QUEUED], inc := m.inc + [GCObject(o)]))
  {
    hide CountsOk;
    CountsPushed(m, o);
  }

  /** Colouring an object that is on no stack, without making it gray, keeps the stacks right. */
  lemma StacksSet(g: Graph, m: Marks, o: Obj, b: Bits, flag: bool)
    requires StacksOk(g, m) && o in m.bits && !m.bits[o].Queued() && !b.Queued() && (b.Free() ==> m.again[o] == 0)
    ensures StacksOk(g, m.(bits := m.bits[o := b], overflow := flag))
  {
    var m' := m.(bits := m.bits[o := b], overflow := flag);
    forall x | x in m'.bits ensures Occurrences(m', x) == (if m'.bits[x].Queued() then 1 else 0) + m'.again[x] {
      assert Occurrences(m, x) == (if m.bits[x].Queued() then 1 else 0) + m.again[x];
    }
  }

  lemma BlackenLeaf(g: Graph, m: Marks, o: Obj, allowed: set<Obj>)
    requires Sound(g, m, allowed) && o in m.bits && m.bits[o].White() && o in allowed
    ensures Sound(g, m.(bits := m.bits[o := BLACK]), allowed)
    ensures Traced(m, m.(bits := m.bits[o := BLACK]))
  {
    StacksSet(g, m, o, BLACK, m.overflow);
    ConfinedSet(g, m.bits, allowed, o, BLACK);
    GraphOkDarker(g, m.bits, m.bits[o := BLACK]);
  }

  lemma Queue(g: Graph, m: Marks, o: Obj, allowed: set<Obj>)
    requires Sound(g, m, allowed) && OnlyObjects(m.inc)
    requires o in m.bits && m.bits[o].White() && o in g.pointerful && o in allowed
    ensures Sound(g, m.(bits := m.bits[o := QUEUED], inc := m.inc + [GCObject(o)]), allowed)
    ensures Traced(m, m.(bits := m.bits[o := QUEUED], inc := m.inc + [GCObject(o)]))
    ensures OnlyObjects(m.inc + [GCObject(o)])
  {
    StacksPush(g, m, o);
    hide StacksOk;
    ConfinedSet(g, m.bits, allowed, o, QUEUED);
    GraphOkDarker(g, m.bits, m.bits[o := QUEUED]);
  }

  /** The three outcomes of tracing a white object. */
  lemma TracePointerCases(g: Graph, m: Marks, o: Obj, ok: bool)
    requires o in m.bits && m.bits[o].White() && o != NULL
    ensures TracePointer(g, m, o, ok) ==
      if o !in g.pointerful then m.(bits := m.bits[o := BLACK])
      else if ok then m.(bits := m.bits[o := QUEUED], inc := m.inc + [GCObject(o)])
      else m.(overflow := true)
  {
    assert m.bits[o := QUEUED][o := WHITE] == m.bits;
  }

  lemma TracePointerKeeps(g: Graph, m: Marks, o: Obj, ok: bool, allowed: set<Obj>)
    requires Sound(g, m, allowed) && OnlyObjects(m.inc)
    requires o == NULL || (o in m.bits && o in allowed)
    requires m.inc == [] ==> ok
    ensures Sound(g, TracePointer(g, m, o, ok), allowed)
    ensures OnlyObjects(TracePointer(g, m, o, ok).inc)
    ensures Traced(m, TracePointer(g, m, o, ok))
  {
    hide StacksOk, GraphOk, Confined, OnlyObjects;
    if o != NULL && m.bits[o].White() {
      TracePointerCases(g, m, o, ok);
      if o !in g.pointerful {
        BlackenLeaf(g, m, o, allowed);
      } else if ok {
        Queue(g, m, o, allowed);
      } else {
        StacksFlag(g, m, true);
      }
    }
  }

  /** Afterwards the target is not white, or the flag is up; and only leaves turned black. */
  lemma TracePointerReaches(g: Graph, m: Marks, o: Obj, ok: bool)
    requires o == NULL || o in m.bits
    ensures o != NULL && !TracePointer(g, m, o, ok).overflow ==> !TracePointer(g, m, o, ok).bits[o].White()
    ensures forall x :: x in m.bits && TracePointer(g, m, o, ok).bits[x].Black() ==>
              m.bits[x].Black() || x !in g.pointerful
  {
  }

  /** Objects that turned black without being traced are leaves. */
  ghost predicate OnlyLeavesBlackened(g: Graph, a: map<Obj, Bits>, b: map<Obj, Bits>) {
    forall x :: x in a && x in b && b[x].Black() ==> a[x].Black() || x !in g.pointerful
  }

  lemma TricolorTraced(g: Graph, m: Marks, m': Marks, exempt: set<Obj>)
    requires GraphOk(g, m.bits) && Traced(m, m') && OnlyLeavesBlackened(g, m.bits, m'.bits)
    requires TricolorExcept(g, m, exempt)
    ensures TricolorExcept(g, m', exempt)
  {
    if !m'.overflow {
      forall o | o in m'.bits && o in g.fields && m'.bits[o].Black() && o !in exempt
        ensures Closed(g, m'.bits, o)
      {
        if m.bits[o].Black() {
          ClosedKept(g, o, m.bits, m'.bits);
        } else {
          PointerFree(g, o, m'.bits);
        }
      }
    }
  }

  /** From `m0`, the pointers `done` have been traced and the state is `m`. */
  ghost predicate Tracing(g: Graph, m0: Marks, m: Marks, done: seq<Obj>, allowed: set<Obj>) {
    && Sound(g, m, allowed) && OnlyObjects(m.inc)
    && Traced(m0, m) && OnlyLeavesBlackened(g, m0.bits, m.bits)
    && (!m.overflow ==> NoneWhite(done, m.bits))
  }

  lemma TracingStart(g: Graph, m: Marks, allowed: set<Obj>)
    requires Sound(g, m, allowed) && OnlyObjects(m.inc)
    ensures Tracing(g, m, m, [], allowed)
  {
  }

  lemma TracingDomain(g: Graph, m0: Marks, m: Marks, done: seq<Obj>, allowed: set<Obj>)
    requires Tracing(g, m0, m, done, allowed)
    ensures m.bits.Keys == g.fields.Keys
  {
  }

  lemma TracingStep(g: Graph, m0: Marks, m: Marks, done: seq<Obj>, o: Obj, ok: bool, allowed: set<Obj>)
    requires Tracing(g, m0, m, done, allowed)
    requires o == NULL || (o in g.fields && o in allowed)
    requires m.inc == [] ==> ok
    ensures o == NULL || o in m.bits
    ensures Tracing(g, m0, TracePointer(g, m, o, ok), done + [o], allowed)
  {
    var m' := TracePointer(g, m, o, ok);
    TracePointerKeeps(g, m, o, ok, allowed);
    TracePointerReaches(g, m, o, ok);
    TracedTransitive(m0, m, m');
    TracingWhite(g, m, m', done, o);
  }

  lemma TracingWhite(g: Graph, m: Marks, m': Marks, done: seq<Obj>, o: Obj)
    requires Traced(m, m') && NULL !in m.bits
    requires !m.overflow ==> NoneWhite(done, m.bits)
    requires !m'.overflow && o in m'.bits ==> !m'.bits[o].White()
    ensures !m'.overflow ==> NoneWhite(done + [o], m'.bits)
  {
    if !m'.overflow {
      NoneWhiteKept(done, m.bits, m'.bits);
    }
  }

  // ----- taking an object off the stack and blackening it -----

  /** MarkItem's first action: the mark is set, the queued bit cleared. */
  function SetMark(m: Marks, o: Obj): Marks
    requires o in m.bits
  {
    m.(bits := m.bits[o := BLACK])
  }

  /** Take the top item off.  If it is an object that is not queued, it was there once more than its colour says. */
  function PopGCObject(m: Marks): (m': Marks)
    requires m.inc != []
    ensures m'.bits == m.bits
  {
    m.(inc := m.inc[..|m.inc| - 1], again := AgainAfter(m, m.inc[|m.inc| - 1]))
  }

  function AgainAfter(m: Marks, top: Item): multiset<Obj> {
    if top.GCObject? && top.obj in m.bits && !m.bits[top.obj].Queued() then m.again - multiset{top.obj} else m.again
  }

  lemma OccurrencesPop(m: Marks, x: Obj)
    requires m.inc != [] && m.inc[|m.inc| - 1].GCObject? && m.inc[|m.inc| - 1].obj in m.bits
    ensures Occurrences(SetMark(PopGCObject(m), m.inc[|m.inc| - 1].obj), x)
         == Occurrences(m, x) - if x == m.inc[|m.inc| - 1].obj then 1 else 0
  {
    assert m.inc == m.inc[..|m.inc| - 1] + [m.inc[|m.inc| - 1]];
  }

  /** What is on top is queued, or has been pushed once more than its colour says. */
  lemma TopOfStack(g: Graph, m: Marks)
    requires StacksOk(g, m) && m.inc != [] && m.inc[|m.inc| - 1].GCObject?
    ensures var o := m.inc[|m.inc| - 1].obj;
      && o in m.bits && OnlyObjects(m.inc[..|m.inc| - 1])
      && (if m.bits[o].Queued() then o in g.pointerful || o in m.resurrected
          else m.again[o] > 0 && o in m.resurrected && !m.bits[o].Free())
  {
    var o := m.inc[|m.inc| - 1].obj;
    assert GCObject(o) in multiset(m.inc);
    assert Occurrences(m, o) > 0;
    assert m.bits[o].Queued() || o in m.again;
  }

  /** Popping an object and marking it keeps every invariant. */
  lemma PopAndMark(g: Graph, m: Marks, allowed: set<Obj>)
    requires Sound(g, m, allowed) && m.inc != [] && m.inc[|m.inc| - 1].GCObject?
    ensures m.inc[|m.inc| - 1].obj in m.bits
    ensures var o := m.inc[|m.inc| - 1].obj;
            && (if m.bits[o].Queued() then o in g.pointerful || o in m.resurrected else m.again[o] > 0) && o in allowed
            && Sound(g, SetMark(PopGCObject(m), o), allowed)
            && Darker(m.bits, m.bits[o := BLACK])
            && OnlyObjects(PopGCObject(m).inc)
  {
    hide StacksOk, OnlyObjects, GraphOk, PopGCObject, SetMark, AgainAfter;
    TopOfStack(g, m);
    StacksPop(g, m);
    PoppedIs(m);
    var o := m.inc[|m.inc| - 1].obj;
    assert o in allowed;
    hide Confined;
    ConfinedSet(g, m.bits, allowed, o, BLACK);
    GraphOkDarker(g, m.bits, m.bits[o := BLACK]);
    PoppedObjects(m);
  }

  lemma StacksPop(g: Graph, m: Marks)
    requires StacksOk(g, m) && m.inc != [] && m.inc[|m.inc| - 1].GCObject?
    ensures m.inc[|m.inc| - 1].obj in m.bits
    ensures StacksOk(g, SetMark(PopGCObject(m), m.inc[|m.inc| - 1].obj))
  {
    hide Occurrences, OnlyObjects, PopGCObject, AgainAfter, SetMark;
    TopOfStack(g, m);
    PoppedIs(m);
    var o := m.inc[|m.inc| - 1].obj;
    var m' := SetMark(PopGCObject(m), o);
    forall x | x in m'.bits ensures Occurrences(m', x) == (if m'.bits[x].Queued() then 1 else 0) + m'.again[x] {
      CountPop(g, m, x);
    }
  }

  lemma PoppedObjects(m: Marks)
    requires m.inc != [] && OnlyObjects(m.inc[..|m.inc| - 1])
    ensures OnlyObjects(PopGCObject(m).inc)
  {
  }

  lemma PoppedIs(m: Marks)
    requires m.inc != [] && m.inc[|m.inc| - 1].GCObject? && m.inc[|m.inc| - 1].obj in m.bits
    ensures var o := m.inc[|m.inc| - 1].obj; var m' := SetMark(PopGCObject(m), o);
      && m'.bits == m.bits[o := BLACK] && m'.inc == m.inc[..|m.inc| - 1] && m'.bar == m.bar
      && m'.resurrected == m.resurrected
      && (forall x :: x in m'.again ==> x in m.again)
  {
  }

  lemma CountPop(g: Graph, m: Marks, x: Obj)
    requires StacksOk(g, m) && m.inc != [] && m.inc[|m.inc| - 1].GCObject? && m.inc[|m.inc| - 1].obj in m.bits
    requires x in m.bits
    requires !m.bits[m.inc[|m.inc| - 1].obj].Queued() ==> m.again[m.inc[|m.inc| - 1].obj] > 0
    ensures var m' := SetMark(PopGCObject(m), m.inc[|m.inc| - 1].obj);
      Occurrences(m', x) == (if m'.bits[x].Queued() then 1 else 0) + m'.again[x]
  {
    OccurrencesPop(m, x);
    assert Occurrences(m, x) == (if m.bits[x].Queued() then 1 else 0) + m.again[x];
    hide Occurrences, StacksOk;
  }

  /** Taking the native stack off the top leaves a stack of objects only. */
  lemma StacksPopMemory(g: Graph, m: Marks)
    requires StacksOk(g, m) && m.inc != [] && m.inc[|m.inc| - 1].StackMemory?
    ensures StacksOk(g, PopGCObject(m)) && OnlyObjects(PopGCObject(m).inc)
  {
    var m' := PopGCObject(m);
    assert m.inc == m'.inc + [StackMemory];
    forall x | x in m'.bits ensures Occurrences(m', x) == (if m'.bits[x].Queued() then 1 else 0) + m'.again[x] {
      assert Occurrences(m, x) == (if m.bits[x].Queued() then 1 else 0) + m.again[x];
      assert Occurrences(m', x) == Occurrences(m, x);
    }
  }

  lemma StacksPushMemory(g: Graph, m: Marks)
    requires StacksOk(g, m) && OnlyObjects(m.inc)
    ensures StacksOk(g, m.(inc := m.inc + [StackMemory]))
  {
    var m' := m.(inc := m.inc + [StackMemory]);
    forall x | x in m'.bits ensures Occurrences(m', x) == (if m'.bits[x].Queued() then 1 else 0) + m'.again[x] {
      assert Occurrences(m, x) == (if m.bits[x].Queued() then 1 else 0) + m.again[x];
      assert Occurrences(m', x) == Occurrences(m, x);
    }
  }

  /** Tracing all pointers of `o` removes it from the objects that may point to white ones. */
  lemma TricolorMarked(g: Graph, m: Marks, m': Marks, o: Obj, exempt: set<Obj>)
    requires GraphOk(g, m.bits) && o in m.bits
    requires Traced(SetMark(m, o), m') && OnlyLeavesBlackened(g, SetMark(m, o).bits, m'.bits)
    requires Darker(m.bits, SetMark(m, o).bits) && GraphOk(g, SetMark(m, o).bits)
    requires TricolorExcept(g, m, exempt)
    requires !m'.overflow ==> NoneWhite(g.fields[o], m'.bits)
    ensures TricolorExcept(g, m', exempt - {o})
  {
    var m1 := SetMark(m, o);
    if !m1.overflow {
      forall x | x in m1.bits && x in g.fields && m1.bits[x].Black() && x !in exempt + {o}
        ensures Closed(g, m1.bits, x)
      {
        ClosedKept(g, x, m.bits, m1.bits);
      }
    }
    TricolorTraced(g, m1, m', exempt + {o});
    if !m'.overflow && o in g.fields { NoneWhiteCloses(g, o, m'.bits); }
  }

  // ----- one turn of the marker -----

  /** Marking never un-marks, forgets the barrier stack, or lowers the flag. */
  ghost predicate Onward(m: Marks, m': Marks) {
    && Darker(m.bits, m'.bits)
    && m'.bar == m.bar
    && m'.resurrected == m.resurrected && m'.again <= m.again
    && (m.overflow ==> m'.overflow)
    && StillDue(m, m')
  }

  /** Whatever was on the mark stack is there, or has been marked. */
  ghost predicate StillDue(m: Marks, m': Marks) {
    forall o :: GCObject(o) in m.inc ==> GCObject(o) in m'.inc || (o in m'.bits && m'.bits[o].mark)
  }

  lemma StillDueTransitive(a: Marks, b: Marks, c: Marks)
    requires StillDue(a, b) && StillDue(b, c) && Darker(b.bits, c.bits)
    ensures StillDue(a, c)
  {
  }

  lemma StillDueMore(m: Marks, m': Marks)
    requires m.inc <= m'.inc
    ensures StillDue(m, m')
  {
    forall o | GCObject(o) in m.inc ensures GCObject(o) in m'.inc {
      var i :| 0 <= i < |m.inc| && m.inc[i] == GCObject(o);
      assert m'.inc[i] == GCObject(o);
    }
  }

  lemma StillDuePopped(m: Marks, m': Marks)
    requires m.inc != [] && m.inc[..|m.inc| - 1] <= m'.inc
    requires m.inc[|m.inc| - 1].GCObject? ==> m.inc[|m.inc| - 1].obj in m'.bits && m'.bits[m.inc[|m.inc| - 1].obj].mark
    ensures StillDue(m, m')
  {
    forall o | GCObject(o) in m.inc ensures GCObject(o) in m'.inc || (o in m'.bits && m'.bits[o].mark) {
      var i :| 0 <= i < |m.inc| && m.inc[i] == GCObject(o);
      if i < |m.inc| - 1 { assert m'.inc[i] == m.inc[..|m.inc| - 1][i]; }
    }
  }

  /** Progress: an object has been marked, or one that was on the stack twice is so no more. */
  ghost predicate LessLeft(m: Marks, m': Marks) {
    && Unmarked(m'.bits) <= Unmarked(m.bits) && m'.again <= m.again
    && (Unmarked(m'.bits) < Unmarked(m.bits) || m'.again < m.again)
  }

  lemma LessLeftIs(m: Marks, m': Marks)
    requires LessLeft(m, m')
    ensures Unmarked(m'.bits) < Unmarked(m.bits) || (Unmarked(m'.bits) == Unmarked(m.bits) && m'.again < m.again)
  {
    hide Unmarked;
  }

  /** How many objects are without a mark, and how many pushes there have been too many. */
  ghost function Left(m: Marks): nat {
    |Unmarked(m.bits)| + |m.again|
  }

  lemma SmallerSet(a: set<Obj>, b: set<Obj>)
    requires a <= b
    ensures |a| <= |b| && (a != b ==> |a| < |b|)
  {
    assert b == a + (b - a);
    if a != b {
      assert b - a != {};
    }
  }

  lemma SmallerMultiset(a: multiset<Obj>, b: multiset<Obj>)
    requires a <= b
    ensures |a| <= |b| && (a != b ==> |a| < |b|)
  {
    assert b == a + (b - a);
    if a != b {
      assert b - a != multiset{};
    }
  }

  /** Progress, counted. */
  lemma LessIsLeft(m: Marks, m': Marks)
    requires NoMoreLeft(m, m')
    ensures Left(m') <= Left(m) && (LessLeft(m, m') <==> Left(m') < Left(m))
  {
    SmallerSet(Unmarked(m'.bits), Unmarked(m.bits));
    SmallerMultiset(m'.again, m.again);
  }

  lemma StillDueBelow(m: Marks, m': Marks, items: seq<Item>)
    requires m'.inc == items + m.inc
    ensures StillDue(m, m')
  {
    forall o | GCObject(o) in m.inc ensures GCObject(o) in m'.inc {
      var i :| 0 <= i < |m.inc| && m.inc[i] == GCObject(o);
      assert m'.inc[|items| + i] == GCObject(o);
    }
  }

  ghost predicate NoMoreLeft(m: Marks, m': Marks) {
    Unmarked(m'.bits) <= Unmarked(m.bits) && m'.again <= m.again
  }

  lemma OnwardTransitive(a: Marks, b: Marks, c: Marks)
    requires Onward(a, b) && Onward(b, c)
    ensures Onward(a, c) && NoMoreLeft(a, b) && NoMoreLeft(b, c)
  {
    DarkerTransitive(a.bits, b.bits, c.bits);
    StillDueTransitive(a, b, c);
  }

  /** Popping an object, marking it and tracing its fields. */
  lemma MarkedObject(g: Graph, m: Marks, m': Marks, allowed: set<Obj>, exempt: set<Obj>)
    requires Sound(g, m, allowed) && TricolorExcept(g, m, exempt)
    requires m.inc != [] && m.inc[|m.inc| - 1].GCObject? && m.inc[|m.inc| - 1].obj in m.bits
    requires m.inc[|m.inc| - 1].obj in g.fields
    requires var o := m.inc[|m.inc| - 1].obj;
             Tracing(g, SetMark(PopGCObject(m), o), m', g.fields[o], allowed)
    ensures Sound(g, m', allowed) && OnlyObjects(m'.inc) && TricolorExcept(g, m', exempt)
    ensures Onward(m, m') && LessLeft(m, m') && m.inc[..|m.inc| - 1] <= m'.inc
  {
    hide Sound, OnlyObjects, TricolorExcept, OnlyLeavesBlackened, Traced, Onward, LessLeft, PopGCObject, SetMark,
      NoneWhite, GraphOk;
    var o := m.inc[|m.inc| - 1].obj;
    PopAndMark(g, m, allowed);
    SoundBits(g, m, allowed);
    SoundBits(g, SetMark(PopGCObject(m), o), allowed);
    TricolorPop(g, m, exempt);
    MarkedBits(m, o);
    TricolorMarked(g, PopGCObject(m), m', o, exempt);
    TricolorSame(g, m', exempt - {o}, exempt);
    MarkedOnward(m, m', o);
  }

  lemma SoundBits(g: Graph, m: Marks, allowed: set<Obj>)
    requires Sound(g, m, allowed)
    ensures GraphOk(g, m.bits)
  {
  }

  lemma MarkedBits(m: Marks, o: Obj)
    requires m.inc != [] && o in m.bits
    ensures PopGCObject(m).bits == m.bits
    ensures SetMark(PopGCObject(m), o).bits == m.bits[o := BLACK]
  {
  }

  lemma TricolorPop(g: Graph, m: Marks, exempt: set<Obj>)
    requires TricolorExcept(g, m, exempt) && m.inc != []
    ensures TricolorExcept(g, PopGCObject(m), exempt)
  {
  }

  lemma MarkedOnward(m: Marks, m': Marks, o: Obj)
    requires m.inc != [] && m.inc[|m.inc| - 1] == GCObject(o) && o in m.bits
    requires !m.bits[o].Queued() ==> m.again[o] > 0
    requires Darker(m.bits, m.bits[o := BLACK]) && Traced(SetMark(PopGCObject(m), o), m')
    ensures Onward(m, m') && LessLeft(m, m') && m.inc[..|m.inc| - 1] <= m'.inc
  {
    hide StillDue;
    var m1 := SetMark(PopGCObject(m), o);
    DarkerTransitive(m.bits, m1.bits, m'.bits);
    DarkerUnmarked(m.bits, m'.bits);
    assert m.bits[o].Queued() ==> o in Unmarked(m.bits) && o !in Unmarked(m'.bits);
    StillDuePopped(m, m');
  }

  lemma TricolorSame(g: Graph, m: Marks, a: set<Obj>, b: set<Obj>)
    requires TricolorExcept(g, m, a) && a <= b
    ensures TricolorExcept(g, m, b)
  {
  }

  /** Popping the native stack and tracing it. */
  lemma MarkedMemory(g: Graph, m: Marks, m': Marks, allowed: set<Obj>, exempt: set<Obj>)
    requires Sound(g, m, allowed) && TricolorExcept(g, m, exempt)
    requires m.inc != [] && m.inc[|m.inc| - 1].StackMemory?
    requires Tracing(g, PopGCObject(m), m', g.nativeStack, allowed)
    ensures Sound(g, m', allowed) && OnlyObjects(m'.inc) && TricolorExcept(g, m', exempt)
    ensures Onward(m, m') && NoMoreLeft(m, m')
    ensures m.inc[..|m.inc| - 1] <= m'.inc && (m'.overflow && !m.overflow ==> m'.inc != [])
    ensures !m'.overflow ==> NoneWhite(g.nativeStack, m'.bits)
  {
    TricolorTraced(g, PopGCObject(m), m', exempt);
    DarkerUnmarked(m.bits, m'.bits);
    StillDuePopped(m, m');
  }

  /** Tracing a root, or an object that is black already, adds work but loses nothing. */
  lemma TracedMore(g: Graph, m: Marks, m': Marks, ptrs: seq<Obj>, allowed: set<Obj>, exempt: set<Obj>)
    requires Sound(g, m, allowed) && TricolorExcept(g, m, exempt)
    requires Tracing(g, m, m', ptrs, allowed)
    ensures Sound(g, m', allowed) && OnlyObjects(m'.inc) && TricolorExcept(g, m', exempt)
    ensures Onward(m, m') && m.inc <= m'.inc && (m'.overflow && !m.overflow ==> m'.inc != [])
    ensures !m'.overflow ==> NoneWhite(ptrs, m'.bits)
  {
    TricolorTraced(g, m, m', exempt);
    StillDueMore(m, m');
  }

  /** MarkItem on an object that is marked already, as the overflow recovery does. */
  lemma TracedAgain(g: Graph, m: Marks, m': Marks, o: Obj, allowed: set<Obj>, exempt: set<Obj>)
    requires Sound(g, m, allowed) && TricolorExcept(g, m, exempt)
    requires o in m.bits && o in g.fields && m.bits[o].Black()
    requires Tracing(g, m, m', g.fields[o], allowed)
    ensures Sound(g, m', allowed) && OnlyObjects(m'.inc) && TricolorExcept(g, m', exempt - {o})
    ensures Onward(m, m') && m.inc <= m'.inc && (m'.overflow && !m.overflow ==> m'.inc != [])
  {
    hide StacksOk, Confined, OnlyObjects;
    assert SetMark(m, o) == m;
    TricolorMarked(g, m, m', o, exempt);
    StillDueMore(m, m');
  }

  lemma PopMemory(g: Graph, m: Marks, allowed: set<Obj>)
    requires Sound(g, m, allowed) && m.inc != [] && m.inc[|m.inc| - 1].StackMemory?
    ensures Sound(g, PopGCObject(m), allowed) && OnlyObjects(PopGCObject(m).inc)
  {
    StacksPopMemory(g, m);
  }

  lemma RootsOf(g: Graph, m: Marks, allowed: set<Obj>)
    requires Sound(g, m, allowed)
    ensures g.fields.Keys == m.bits.Keys
    ensures RootPointersIn(g, g.fields.Keys) && RootPointersIn(g, allowed)
  {
  }

  lemma FieldsOf(g: Graph, m: Marks, allowed: set<Obj>, o: Obj)
    requires Sound(g, m, allowed) && o in m.bits && o in allowed
    ensures g.fields.Keys == m.bits.Keys
    ensures PointersIn(g.fields[o], g.fields.Keys) && PointersIn(g.fields[o], allowed)
  {
  }

  ghost predicate HasObject(inc: seq<Item>) {
    inc != [] && inc[0].GCObject?
  }

  ghost predicate ScansMemory(inc: seq<Item>) {
    inc != [] && inc[|inc| - 1].StackMemory?
  }

  /** Somewhere in the middle of Mark(): what has been achieved since `m0`, or is still on the stack. */
  ghost predicate Draining(g: Graph, m0: Marks, m: Marks) {
    && Onward(m0, m) && NoMoreLeft(m0, m)
    && (m != m0 ==>
        && OnlyObjects(m.inc)
        && (ScansMemory(m0.inc) && !m.overflow ==> NoneWhite(g.nativeStack, m.bits))
        && (HasObject(m0.inc) || (m.overflow && !m0.overflow) ==>
              m.inc != [] || LessLeft(m0, m)))
  }

  /** Mark() has emptied the stack. */
  ghost predicate Drained(g: Graph, m0: Marks, m: Marks) {
    && m.inc == []
    && Onward(m0, m) && NoMoreLeft(m0, m)
    && (ScansMemory(m0.inc) && !m.overflow ==> NoneWhite(g.nativeStack, m.bits))
    && (HasObject(m0.inc) || (m.overflow && !m0.overflow) ==> LessLeft(m0, m))
  }

  lemma DrainingObject(g: Graph, m0: Marks, m: Marks, m': Marks)
    requires Draining(g, m0, m) && m.inc != [] && m.inc[|m.inc| - 1].GCObject?
    requires Onward(m, m') && LessLeft(m, m') && OnlyObjects(m'.inc)
    ensures Draining(g, m0, m')
  {
    OnwardTransitive(m0, m, m');
    if ScansMemory(m0.inc) && !m'.overflow {
      NoneWhiteKept(g.nativeStack, m.bits, m'.bits);
    }
  }

  lemma DrainingMemory(g: Graph, m0: Marks, m: Marks, m': Marks)
    requires Draining(g, m0, m) && m.inc != [] && m.inc[|m.inc| - 1].StackMemory?
    requires Onward(m, m') && OnlyObjects(m'.inc)
    requires m.inc[..|m.inc| - 1] <= m'.inc && (m'.overflow && !m.overflow ==> m'.inc != [])
    requires !m'.overflow ==> NoneWhite(g.nativeStack, m'.bits)
    ensures m == m0 && Draining(g, m0, m')
  {
    OnwardTransitive(m0, m, m');
  }

  lemma DrainingDone(g: Graph, m0: Marks, m: Marks)
    requires Draining(g, m0, m) && m.inc == []
    ensures Drained(g, m0, m)
  {
  }

  lemma ObjectsDoNotScan(inc: seq<Item>)
    requires OnlyObjects(inc)
    ensures !ScansMemory(inc)
  {
  }

  lemma DrainingStart(g: Graph, m: Marks)
    ensures Draining(g, m, m)
  {
  }

  // ----- passes over roots and heap -----

  /**
   Between two points of a pass: bits only darken, and a flag that went up, or
   work that was pending, shows as pending work or as a newly marked object.
   */
  ghost predicate Passing(m0: Marks, m: Marks) {
    && Darker(m0.bits, m.bits) && NoMoreLeft(m0, m) && m.resurrected == m0.resurrected
    && OnlyObjects(m.inc) && StillDue(m0, m)
    && (m0.overflow ==> m.overflow)
    && (m0.inc != [] || (m.overflow && !m0.overflow) ==> m.inc != [] || LessLeft(m0, m))
  }

  lemma PassingTransitive(a: Marks, b: Marks, c: Marks)
    requires Passing(a, b) && Passing(b, c)
    ensures Passing(a, c)
  {
    DarkerTransitive(a.bits, b.bits, c.bits);
    StillDueTransitive(a, b, c);
  }

  lemma PassingStart(m: Marks)
    requires OnlyObjects(m.inc)
    ensures Passing(m, m)
  {
  }

  lemma PassingTraced(m: Marks, m': Marks)
    requires Onward(m, m') && m.inc <= m'.inc && OnlyObjects(m'.inc)
    requires m'.overflow && !m.overflow ==> m'.inc != []
    ensures Passing(m, m')
  {
    DarkerUnmarked(m.bits, m'.bits);
  }

  lemma PassingDrained(g: Graph, m: Marks, m': Marks)
    requires Drained(g, m, m') && OnlyObjects(m.inc)
    ensures Passing(m, m')
  {
  }

  /** A round of recovery, from `m1` with the flag lowered to `m`. */
  lemma RoundProgress(m0: Marks, m1: Marks, m: Marks)
    requires Darker(m0.bits, m1.bits) && Passing(m1.(overflow := false), m) && m.inc == []
    ensures Darker(m0.bits, m.bits)
    ensures NoMoreLeft(m1, m) && m.resurrected == m1.resurrected && StillDue(m1, m)
    ensures m.overflow ==> LessLeft(m1, m)
  {
    DarkerTransitive(m0.bits, m1.bits, m.bits);
  }

  predicate Selected(r: Root, stackRoots: bool) {
    r.exact || r.isStack == stackRoots
  }

  /** One of the first `n` roots that are selected points to `o`. */
  ghost predicate RootTarget(g: Graph, n: nat, stackRoots: bool, o: Obj) {
    || (!stackRoots && o in g.gcRoots)
    || exists i :: 0 <= i < n && i < |g.roots| && Selected(g.roots[i], stackRoots) && o in g.roots[i].ptrs
  }

  /** No object has changed its colour but what the first `n` selected roots point to. */
  ghost predicate OnlyTargets(g: Graph, n: nat, stackRoots: bool, a: map<Obj, Bits>, b: map<Obj, Bits>) {
    forall o :: o in a && o in b && a[o] != b[o] ==> RootTarget(g, n, stackRoots, o)
  }

  /** ... but what is among the pointers. */
  ghost predicate OnlyThese(ptrs: seq<Obj>, a: map<Obj, Bits>, b: map<Obj, Bits>) {
    forall o :: o in a && o in b && a[o] != b[o] ==> o in ptrs
  }

  lemma OnlyTheseStart(a: map<Obj, Bits>)
    ensures OnlyThese([], a, a)
  {
  }

  lemma OnlyTheseNext(g: Graph, m0: Marks, m: Marks, ptrs: seq<Obj>, o: Obj, ok: bool)
    requires OnlyThese(ptrs, m0.bits, m.bits) && (o == NULL || o in m.bits)
    ensures OnlyThese(ptrs + [o], m0.bits, TracePointer(g, m, o, ok).bits)
  {
  }

  lemma OnlyTargetsStart(g: Graph, stackRoots: bool, a: map<Obj, Bits>, b: map<Obj, Bits>)
    requires if stackRoots then a == b else OnlyThese(g.gcRoots, a, b)
    ensures OnlyTargets(g, 0, stackRoots, a, b)
  {
  }

  lemma OnlyTargetsNext(g: Graph, n: nat, stackRoots: bool, a: map<Obj, Bits>, b: map<Obj, Bits>, c: map<Obj, Bits>)
    requires OnlyTargets(g, n, stackRoots, a, b) && n < |g.roots| && a.Keys == b.Keys
    requires if Selected(g.roots[n], stackRoots) then OnlyThese(g.roots[n].ptrs, b, c) else b == c
    ensures OnlyTargets(g, n + 1, stackRoots, a, c)
  {
    forall o | o in a && o in c && a[o] != c[o] ensures RootTarget(g, n + 1, stackRoots, o) {
      if b[o] != a[o] { assert RootTarget(g, n, stackRoots, o); }
    }
  }

  /** The first `n` of the selected roots lead to no white object. */
  ghost predicate RootsTraced(g: Graph, n: nat, stackRoots: bool, bits: map<Obj, Bits>) {
    && (!stackRoots ==> NoneWhite(g.gcRoots, bits))
    && forall i :: 0 <= i < n && i < |g.roots| && Selected(g.roots[i], stackRoots) ==> NoneWhite(g.roots[i].ptrs, bits)
  }

  lemma RootsTracedKept(g: Graph, n: nat, stackRoots: bool, a: map<Obj, Bits>, b: map<Obj, Bits>)
    requires RootsTraced(g, n, stackRoots, a) && Darker(a, b)
    ensures RootsTraced(g, n, stackRoots, b)
  {
    if !stackRoots { NoneWhiteKept(g.gcRoots, a, b); }
    forall i | 0 <= i < n && i < |g.roots| && Selected(g.roots[i], stackRoots)
      ensures NoneWhite(g.roots[i].ptrs, b)
    {
      NoneWhiteKept(g.roots[i].ptrs, a, b);
    }
  }

  lemma RootsTracedNext(g: Graph, n: nat, stackRoots: bool, bits: map<Obj, Bits>)
    requires n < |g.roots| && RootsTraced(g, n, stackRoots, bits)
    requires Selected(g.roots[n], stackRoots) ==> NoneWhite(g.roots[n].ptrs, bits)
    ensures RootsTraced(g, n + 1, stackRoots, bits)
  {
  }

  lemma RootsTracedStart(g: Graph, stackRoots: bool, bits: map<Obj, Bits>)
    requires !stackRoots ==> NoneWhite(g.gcRoots, bits)
    ensures RootsTraced(g, 0, stackRoots, bits)
  {
  }

  lemma PassingObjects(m0: Marks, m: Marks)
    requires Passing(m0, m)
    ensures OnlyObjects(m.inc) && Darker(m0.bits, m.bits) && (m0.overflow ==> m.overflow)
    ensures NoMoreLeft(m0, m) && m.resurrected == m0.resurrected
  {
  }

  lemma PassingKeys(m0: Marks, m: Marks)
    requires Passing(m0, m)
    ensures m.bits.Keys == m0.bits.Keys
  {
  }

  lemma RootTraced(g: Graph, n: nat, stackRoots: bool, m: Marks, m': Marks)
    requires n < |g.roots| && Passing(m, m')
    requires !m.overflow ==> RootsTraced(g, n, stackRoots, m.bits)
    requires Selected(g.roots[n], stackRoots) && !m'.overflow ==> NoneWhite(g.roots[n].ptrs, m'.bits)
    ensures !m'.overflow ==> RootsTraced(g, n + 1, stackRoots, m'.bits)
  {
    if !m'.overflow {
      RootsTracedKept(g, n, stackRoots, m.bits, m'.bits);
      RootsTracedNext(g, n, stackRoots, m'.bits);
    }
  }

  lemma RootsDrained(g: Graph, n: nat, stackRoots: bool, m: Marks, m': Marks)
    requires Passing(m, m')
    requires !m.overflow ==> RootsTraced(g, n, stackRoots, m.bits)
    ensures !m'.overflow ==> RootsTraced(g, n, stackRoots, m'.bits)
  {
    if !m'.overflow { RootsTracedKept(g, n, stackRoots, m.bits, m'.bits); }
  }

  lemma RootPointers(g: Graph, m: Marks, allowed: set<Obj>, i: nat)
    requires Sound(g, m, allowed) && i < |g.roots|
    ensures PointersIn(g.roots[i].ptrs, g.fields.Keys) && PointersIn(g.roots[i].ptrs, allowed)
  {
  }

  lemma OtherRootPointers(g: Graph, m: Marks, allowed: set<Obj>)
    requires Sound(g, m, allowed)
    ensures PointersIn(g.gcRoots, g.fields.Keys) && PointersIn(g.gcRoots, allowed)
    ensures PointersIn(g.nativeStack, g.fields.Keys) && PointersIn(g.nativeStack, allowed)
  {
  }

  // ----- recovery from mark-stack overflow -----

  /** The objects that the recovery has yet to visit. */
  ghost function Unvisited(g: Graph, i: nat): set<Obj>
    requires i <= |g.order|
  {
    set o | o in g.order[i..]
  }

  /** Before the first visit every black object may point to white ones, save the leaves. */
  lemma UnvisitedStart(g: Graph, m: Marks)
    requires GraphOk(g, m.bits)
    ensures TricolorExcept(g, m, Unvisited(g, 0))
  {
    assert g.order[0..] == g.order;
    forall o | o in m.bits && o in g.fields && m.bits[o].Black() && o !in Unvisited(g, 0)
      ensures Closed(g, m.bits, o)
    {
      assert o !in g.pointerful;
      PointerFree(g, o, m.bits);
    }
  }

  /** Visiting an object that is not black: nothing to do for it. */
  lemma UnvisitedSkip(g: Graph, m: Marks, i: nat)
    requires i < |g.order| && TricolorExcept(g, m, Unvisited(g, i))
    requires g.order[i] in m.bits && !m.bits[g.order[i]].Black()
    ensures TricolorExcept(g, m, Unvisited(g, i + 1))
  {
    assert g.order[i..] == [g.order[i]] + g.order[i + 1..];
  }

  /** Visiting a black one and tracing it. */
  lemma UnvisitedTraced(g: Graph, m: Marks, i: nat)
    requires i < |g.order| && TricolorExcept(g, m, Unvisited(g, i) - {g.order[i]})
    ensures TricolorExcept(g, m, Unvisited(g, i + 1))
  {
    assert g.order[i..] == [g.order[i]] + g.order[i + 1..];
    TricolorSame(g, m, Unvisited(g, i) - {g.order[i]}, Unvisited(g, i + 1));
  }

  lemma UnvisitedEnd(g: Graph)
    ensures Unvisited(g, |g.order|) == {}
  {
  }

  lemma OrderInGraph(g: Graph, m: Marks, allowed: set<Obj>, i: nat)
    requires Sound(g, m, allowed) && i < |g.order|
    ensures g.order[i] in m.bits && g.order[i] in g.fields
    ensures m.bits[g.order[i]].Black() ==> g.order[i] in allowed
  {
  }

  // ----- moving work from the barrier stack -----

  function AsItems(bar: seq<Obj>): (items: seq<Item>)
    ensures |items| == |bar| && forall i :: 0 <= i < |bar| ==> items[i] == GCObject(bar[i])
  {
    seq(|bar|, i requires 0 <= i < |bar| => GCObject(bar[i]))
  }

  lemma {:induction false} AsItemsCount(bar: seq<Obj>, o: Obj)
    ensures multiset(AsItems(bar))[GCObject(o)] == multiset(bar)[o]
  {
    if bar == [] {
      assert AsItems(bar) == [];
    } else {
      var n := |bar| - 1;
      AsItemsCount(bar[..n], o);
      assert bar == bar[..n] + [bar[n]];
      assert AsItems(bar) == AsItems(bar[..n]) + [GCObject(bar[n])];
    }
  }

  /** Shuffling work between the stacks keeps them right. */
  lemma StacksShuffled(g: Graph, m: Marks, m': Marks)
    requires StacksOk(g, m) && m'.bits == m.bits && m'.resurrected == m.resurrected && m'.again == m.again
    requires forall x :: x in m.bits ==> Occurrences(m', x) == Occurrences(m, x)
    requires forall i :: 0 <= i < |m'.inc| ==> m'.inc[i].GCObject? && m'.inc[i].obj in m.bits
    requires forall i :: 0 <= i < |m'.bar| ==> m'.bar[i] in m.bits
    ensures StacksOk(g, m') && OnlyObjects(m'.inc)
  {
  }

  lemma SplitInBits(bits: map<Obj, Bits>, bar: seq<Obj>, rest: seq<Obj>, moved: seq<Obj>)
    requires forall i :: 0 <= i < |bar| ==> bar[i] in bits
    requires multiset(bar) == multiset(rest) + multiset(moved)
    ensures forall i :: 0 <= i < |rest| ==> rest[i] in bits
    ensures forall i :: 0 <= i < |moved| ==> moved[i] in bits
  {
    forall i | 0 <= i < |moved| ensures moved[i] in bits {
      assert moved[i] in multiset(bar);
    }
    forall i | 0 <= i < |rest| ensures rest[i] in bits {
      assert rest[i] in multiset(bar);
    }
  }

  /** Move `moved`, cut out of the barrier stack, to the bottom of the mark stack. */
  lemma StacksMove(g: Graph, m: Marks, rest: seq<Obj>, moved: seq<Obj>)
    requires StacksOk(g, m) && OnlyObjects(m.inc)
    requires multiset(m.bar) == multiset(rest) + multiset(moved)
    ensures StacksOk(g, m.(inc := AsItems(moved) + m.inc, bar := rest))
    ensures OnlyObjects(AsItems(moved) + m.inc)
  {
    hide StacksOk, OnlyObjects;
    var m' := m.(inc := AsItems(moved) + m.inc, bar := rest);
    StacksDomain(g, m);
    forall x | x in m.bits ensures Occurrences(m', x) == Occurrences(m, x) {
      AsItemsCount(moved, x);
    }
    SplitInBits(m.bits, m.bar, rest, moved);
    StacksShuffled(g, m, m');
  }

  lemma StacksDomain(g: Graph, m: Marks)
    requires StacksOk(g, m) && OnlyObjects(m.inc)
    ensures forall i :: 0 <= i < |m.inc| ==> m.inc[i].GCObject? && m.inc[i].obj in m.bits
    ensures forall i :: 0 <= i < |m.bar| ==> m.bar[i] in m.bits
  {
  }

  /** Moving one item on top instead. */
  lemma StacksMoveTop(g: Graph, m: Marks)
    requires StacksOk(g, m) && OnlyObjects(m.inc) && m.bar != []
    ensures StacksOk(g, m.(inc := m.inc + [GCObject(m.bar[|m.bar| - 1])], bar := m.bar[..|m.bar| - 1]))
    ensures OnlyObjects(m.inc + [GCObject(m.bar[|m.bar| - 1])])
  {
    hide StacksOk, OnlyObjects;
    var n := |m.bar| - 1;
    var m' := m.(inc := m.inc + [GCObject(m.bar[n])], bar := m.bar[..n]);
    assert m.bar == m.bar[..n] + [m.bar[n]];
    StacksDomain(g, m);
    StacksShuffled(g, m, m');
  }

  /** The stacks may be rearranged, and the flag raised, without touching the other invariants. */
  lemma Rearranged(g: Graph, m: Marks, m': Marks, allowed: set<Obj>, exempt: set<Obj>)
    requires Sound(g, m, allowed) && TricolorExcept(g, m, exempt)
    requires StacksOk(g, m') && m'.bits == m.bits && m'.again == m.again && (m.overflow ==> m'.overflow)
    ensures Sound(g, m', allowed) && TricolorExcept(g, m', exempt)
  {
  }

  lemma MoveEverything(g: Graph, m: Marks, allowed: set<Obj>, exempt: set<Obj>)
    requires Sound(g, m, allowed) && TricolorExcept(g, m, exempt) && OnlyObjects(m.inc)
    ensures Sound(g, m.(inc := AsItems(m.bar) + m.inc, bar := []), allowed)
    ensures TricolorExcept(g, m.(inc := AsItems(m.bar) + m.inc, bar := []), exempt)
    ensures OnlyObjects(AsItems(m.bar) + m.inc)
  {
    hide StacksOk, OnlyObjects;
    StacksMove(g, m, [], m.bar);
    Rearranged(g, m, m.(inc := AsItems(m.bar) + m.inc, bar := []), allowed, exempt);
  }

  lemma MoveTop(g: Graph, m: Marks, allowed: set<Obj>, exempt: set<Obj>)
    requires Sound(g, m, allowed) && TricolorExcept(g, m, exempt) && OnlyObjects(m.inc) && m.bar != []
    ensures Sound(g, m.(inc := m.inc + [GCObject(m.bar[|m.bar| - 1])], bar := m.bar[..|m.bar| - 1]), allowed)
    ensures TricolorExcept(g, m.(inc := m.inc + [GCObject(m.bar[|m.bar| - 1])], bar := m.bar[..|m.bar| - 1]), exempt)
    ensures OnlyObjects(m.inc + [GCObject(m.bar[|m.bar| - 1])])
  {
    hide StacksOk, OnlyObjects;
    StacksMoveTop(g, m);
    Rearranged(g, m, m.(inc := m.inc + [GCObject(m.bar[|m.bar| - 1])], bar := m.bar[..|m.bar| - 1]), allowed, exempt);
  }

  lemma StacksFlag(g: Graph, m: Marks, flag: bool)
    requires StacksOk(g, m)
    ensures StacksOk(g, m.(overflow := flag))
  {
    var m' := m.(overflow := flag);
    forall x | x in m'.bits ensures Occurrences(m', x) == (if m'.bits[x].Queued() then 1 else 0) + m'.again[x] {
      assert Occurrences(m, x) == (if m.bits[x].Queued() then 1 else 0) + m.again[x];
      assert Occurrences(m', x) == Occurrences(m, x);
    }
  }

  /** Raising the flag is always safe. */
  lemma RaiseFlag(g: Graph, m: Marks, allowed: set<Obj>, exempt: set<Obj>)
    requires Sound(g, m, allowed)
    ensures Sound(g, m.(overflow := true), allowed)
    ensures TricolorExcept(g, m.(overflow := true), exempt)
  {
    StacksFlag(g, m, true);
  }

  /** Lowering it costs the tri-colour invariant for every object the recovery has to visit. */
  lemma LowerFlag(g: Graph, m: Marks, allowed: set<Obj>)
    requires Sound(g, m, allowed)
    ensures Sound(g, m.(overflow := false), allowed)
    ensures TricolorExcept(g, m.(overflow := false), Unvisited(g, 0))
  {
    StacksFlag(g, m, false);
    UnvisitedStart(g, m.(overflow := false));
  }

  // ----- finishing -----

  /** Draining with the native stack on top. */
  lemma PassingScan(g: Graph, m1: Marks, m: Marks)
    requires OnlyObjects(m1.inc) && Drained(g, m1.(inc := m1.inc + [StackMemory]), m)
    ensures Passing(m1, m)
    ensures !m.overflow ==> NoneWhite(g.nativeStack, m.bits)
  {
    StillDueMore(m1, m1.(inc := m1.inc + [StackMemory]));
    StillDueTransitive(m1, m1.(inc := m1.inc + [StackMemory]), m);
    assert m1.inc != [] ==> (m1.inc + [StackMemory])[0] == m1.inc[0];
  }

  /** The native stack could not be pushed: there was other work to do. */
  lemma PassingNoScan(m: Marks)
    requires OnlyObjects(m.inc) && m.inc != []
    ensures Passing(m, m.(overflow := true))
  {
  }

  lemma ScanSound(g: Graph, m: Marks, allowed: set<Obj>, exempt: set<Obj>)
    requires Sound(g, m, allowed) && OnlyObjects(m.inc) && TricolorExcept(g, m, exempt)
    ensures Sound(g, m.(inc := m.inc + [StackMemory]), allowed)
    ensures TricolorExcept(g, m.(inc := m.inc + [StackMemory]), exempt)
  {
    StacksPushMemory(g, m);
  }

  lemma EmptyIsObjects()
    ensures OnlyObjects([])
  {
  }

  /** Every starting point of the program has been traced. */
  ghost predicate AllRootsTraced(g: Graph, bits: map<Obj, Bits>, scanStack: bool) {
    && RootsTraced(g, |g.roots|, false, bits)
    && RootsTraced(g, |g.roots|, true, bits)
    && (scanStack ==> NoneWhite(g.nativeStack, bits))
  }

  lemma AllRootsTracedIntro(g: Graph, scanStack: bool, m: Marks, m': Marks)
    requires Passing(m, m')
    requires !m.overflow ==> RootsTraced(g, |g.roots|, false, m.bits)
    requires !m'.overflow ==> RootsTraced(g, |g.roots|, true, m'.bits)
    requires !m'.overflow && scanStack ==> NoneWhite(g.nativeStack, m'.bits)
    ensures !m'.overflow ==> AllRootsTraced(g, m'.bits, scanStack)
  {
    RootsDrained(g, |g.roots|, false, m, m');
  }

  /** Without a scan of the native stack, marking is complete only if that stack holds no pointers. */
  lemma DoneIntro(g: Graph, m: Marks, allowed: set<Obj>, scanStack: bool)
    requires Sound(g, m, allowed) && Tricolor(g, m)
    requires m.inc == [] && m.bar == [] && !m.overflow && AllRootsTraced(g, m.bits, scanStack)
    requires scanStack || PointersIn(g.nativeStack, {})
    ensures MarkingDone(g, m)
    ensures forall o :: Reachable(g, o) ==> o in m.bits && m.bits[o].mark
    ensures forall o :: o in m.bits ==> !m.bits[o].Queued()
    ensures forall o :: o in m.bits && m.bits[o].Black() ==> o in allowed
  {
    forall i | 0 <= i < |g.roots| ensures NoneWhite(g.roots[i].ptrs, m.bits) {
      assert Selected(g.roots[i], true) || Selected(g.roots[i], false);
    }
    NoLostObject(g, m);
    forall o | o in m.bits ensures !m.bits[o].Queued() {
      assert Occurrences(m, o) == 0;
    }
  }
}
