/**
 What the program does to the object graph while a collection cycle is under
 way, as functions on the marking state, and the proof that each such step keeps
 the invariant of the incremental marker.
 */
module MutatorSteps {
  import opened MarkState
  import opened MarkSteps
  import opened Arithmetic

  /** What holds between any two steps of a cycle. */
  ghost predicate Invariant(g: Graph, m: Marks, allowed: set<Obj>) {
    Sound(g, m, allowed) && Tricolor(g, m) && OnlyObjects(m.inc) && g.weak <= allowed
  }

  /** Where a container goes when the write barrier hits. */
  datatype Destination = OnBarrierStack | OnMarkStack | Dropped

  /** A push fails only onto a stack that is not empty. */
  predicate MayGo(m: Marks, d: Destination) {
    match d
    case OnBarrierStack => true
    case OnMarkStack => m.bar != []
    case Dropped => m.bar != [] && m.inc != []
  }

  /** The write barrier: a black container turns gray, or white with the flag up if no stack takes it. */
  function Trap(m: Marks, c: Obj, d: Destination): Marks
    requires c in m.bits
  {
    if !m.bits[c].mark then m else
      match d
      case OnBarrierStack => m.(bits := m.bits[c := QUEUED], bar := m.bar + [c])
      case OnMarkStack => m.(bits := m.bits[c := QUEUED], inc := m.inc + [GCObject(c)])
      case Dropped => m.(bits := m.bits[c := WHITE], overflow := true)
  }

  /** A field that is written dangles no more, unless a dangling pointer is written to it. */
  function WriteField(g: Graph, bits: map<Obj, Bits>, c: Obj, slot: nat, value: Obj): Graph
    requires c in g.fields && slot < |g.fields[c]|
  {
    var f: seq<Obj> := g.fields[c][slot := value];
    g.(fields := g.fields[c := f],
       dangling := if value in bits && bits[value].Free() then g.dangling + {(c, slot)} else g.dangling - {(c, slot)})
  }

  function Zeros(size: nat): (z: seq<Obj>)
    ensures |z| == size && forall i :: 0 <= i < size ==> z[i] == NULL
  {
    seq(size, _ => NULL)
  }

  /** A new object: white, cleared, and known to the program's stack only. */
  function AllocGraph(g: Graph, o: Obj, hasPointers: bool, size: nat): Graph {
    g.(fields := g.fields[o := Zeros(size)],
       pointerful := if hasPointers then g.pointerful + {o} else g.pointerful,
       order := if hasPointers && o !in g.order then g.order + [o] else g.order,
       nativeStack := g.nativeStack + [o],
       dangling := OtherFields(g.dangling, o))
  }

  /** The fields that are not of object `o`. */
  function OtherFields(dangling: set<(Obj, nat)>, o: Obj): set<(Obj, nat)> {
    set e | e in dangling && e.0 != o
  }

  function AllocMarks(m: Marks, o: Obj): Marks {
    m.(bits := m.bits[o := WHITE])
  }

  /** An address may be handed out if it is new, or a free slot of the right kind. */
  ghost predicate MayAllocate(g: Graph, m: Marks, o: Obj, hasPointers: bool) {
    o != NULL && (o in m.bits ==> m.bits[o].Free() && (o in g.pointerful <==> hasPointers))
  }

  /** Explicit deletion during marking: a queued object is only cleared, any other goes to the free list. */
  function FreeMarks(m: Marks, o: Obj): Marks
    requires o in m.bits
  {
    if m.bits[o].Queued() then m else m.(bits := m.bits[o := FREE])
  }

  /** The object loses its pointers, and its weak reference. */
  function ClearGraph(g: Graph, o: Obj): Graph
    requires o in g.fields
  {
    g.(fields := g.fields[o := Zeros(|g.fields[o]|)], dangling := OtherFields(g.dangling, o), weak := g.weak - {o})
  }

  /** The fields that point to object `o`. */
  function FieldsInto(g: Graph, o: Obj): set<(Obj, nat)> {
    set x, i: nat | x in g.fields.Keys && i < |g.fields[x]| && g.fields[x][i] == o :: (x, i)
  }

  /** Whatever points to a deleted object dangles; an object that is queued is not deleted yet. */
  function FreeGraph(g: Graph, bits: map<Obj, Bits>, o: Obj): Graph
    requires o in g.fields && o in bits
  {
    var g1 := ClearGraph(g, o);
    if bits[o].Queued() then g1 else g1.(dangling := g1.dangling + FieldsInto(g1, o))
  }

  /** The program makes a weak reference to `o`. */
  function WeakGraph(g: Graph, o: Obj): Graph {
    g.(weak := g.weak + {o})
  }

  // ----- the barrier -----

  lemma StacksPushBarrier(g: Graph, m: Marks, o: Obj)
    requires StacksOk(g, m) && o in m.bits && m.bits[o].White() && o in g.pointerful
    ensures StacksOk(g, m.(bits := m.bits[o := QUEUED], bar := m.bar + [o]))
  {
    hide CountsOk;
    CountsPushed(m, o);
  }

  lemma TrapIs(m: Marks, c: Obj, d: Destination)
    requires c in m.bits && m.bits[c].Black()
    ensures var m1 := m.(bits := m.bits[c := WHITE]);
      Trap(m, c, d) ==
        match d
        case OnBarrierStack => m1.(bits := m1.bits[c := QUEUED], bar := m1.bar + [c])
        case OnMarkStack => m1.(bits := m1.bits[c := QUEUED], inc := m1.inc + [GCObject(c)])
        case Dropped => m1.(overflow := true)
    ensures OnlyObjects(m.inc) ==> OnlyObjects(Trap(m, c, d).inc)
  {
    assert m.bits[c := WHITE][c := QUEUED] == m.bits[c := QUEUED];
  }

  lemma TrapStacks(g: Graph, m: Marks, c: Obj, d: Destination)
    requires StacksOk(g, m) && OnlyObjects(m.inc) && c in m.bits && m.bits[c].Black() && c in g.pointerful
    ensures StacksOk(g, Trap(m, c, d)) && OnlyObjects(Trap(m, c, d).inc)
  {
    hide StacksOk, OnlyObjects, Trap;
    TrapIs(m, c, d);
    var m1 := m.(bits := m.bits[c := WHITE]);
    StacksSet(g, m, c, WHITE, m.overflow);
    match d
    case OnBarrierStack => StacksPushBarrier(g, m1, c);
    case OnMarkStack => StacksPush(g, m1, c);
    case Dropped => StacksFlag(g, m1, true);
  }

  /** Only the container changed colour, and to gray, or the flag is up. */
  lemma TrapTricolor(g: Graph, m: Marks, c: Obj, d: Destination)
    requires Tricolor(g, m) && c in m.bits && m.bits[c].Black()
    ensures Tricolor(g, Trap(m, c, d))
  {
    var m' := Trap(m, c, d);
    if !m'.overflow {
      forall o | o in m'.bits && o in g.fields && m'.bits[o].Black() ensures Closed(g, m'.bits, o) {
        assert Closed(g, m.bits, o);
      }
    }
  }

  lemma TrapKeeps(g: Graph, m: Marks, c: Obj, d: Destination, allowed: set<Obj>)
    requires Invariant(g, m, allowed) && c in m.bits && !m.bits[c].Free() && c in g.pointerful
    ensures Invariant(g, Trap(m, c, d), allowed)
    ensures Trap(m, c, d).bits.Keys == m.bits.Keys
    ensures !Trap(m, c, d).bits[c].Black() && !Trap(m, c, d).bits[c].Free()
  {
    if m.bits[c].mark {
      hide StacksOk;
      TrapStacks(g, m, c, d);
      TrapTricolor(g, m, c, d);
      TrapGraph(g, m.bits, c, Trap(m, c, d).bits[c]);
      ConfinedSet(g, m.bits, allowed, c, Trap(m, c, d).bits[c]);
    }
  }

  lemma TrapGraph(g: Graph, bits: map<Obj, Bits>, c: Obj, b: Bits)
    requires GraphOk(g, bits) && c in bits && c in g.pointerful && !b.Free() && !bits[c].Free()
    ensures GraphOk(g, bits[c := b])
  {
    assert bits[c := b].Keys == bits.Keys;
  }

  // ----- stores -----

  lemma StacksGraph(g: Graph, g': Graph, m: Marks)
    requires StacksOk(g, m) && g.pointerful <= g'.pointerful
    ensures StacksOk(g', m)
  {
  }

  /** A black object gets a pointer to a white one, and no recovery is due that would find it. */
  predicate Harmful(m: Marks, c: Obj, value: Obj)
    requires c in m.bits
  {
    !m.overflow && m.bits[c].Black() && value in m.bits && m.bits[value].White()
  }

  /** Storing keeps the invariant, unless it does just that. */
  lemma StoreKeeps(g: Graph, m: Marks, c: Obj, slot: nat, value: Obj, allowed: set<Obj>)
    requires Invariant(g, m, allowed)
    requires c in g.fields && c in m.bits && c in g.pointerful && slot < |g.fields[c]|
    requires !m.bits[c].Free() && (value == NULL || (value in m.bits && value in allowed))
    ensures Invariant(WriteField(g, m.bits, c, slot, value), m, allowed) <==> !Harmful(m, c, value)
  {
    assert NULL !in m.bits;
    hide StacksOk, GraphOk, TricolorExcept, Confined, OnlyObjects;
    StacksGraph(g, WriteField(g, m.bits, c, slot, value), m);
    StoreGraph(g, m.bits, c, slot, value);
    StoreTricolor(g, m, c, slot, value);
    StoreConfined(g, m.bits, c, slot, value, allowed);
  }

  lemma StoreConfined(g: Graph, bits: map<Obj, Bits>, c: Obj, slot: nat, value: Obj, allowed: set<Obj>)
    requires Confined(g, bits, allowed) && c in g.fields && slot < |g.fields[c]| && (value == NULL || value in allowed)
    ensures Confined(WriteField(g, bits, c, slot, value), bits, allowed)
  {
    var g' := WriteField(g, bits, c, slot, value);
    forall x | x in allowed && x in g'.fields ensures PointersIn(g'.fields[x], allowed) {
      assert PointersIn(g.fields[x], allowed);
    }
  }

  lemma StoreGraph(g: Graph, bits: map<Obj, Bits>, c: Obj, slot: nat, value: Obj)
    requires GraphOk(g, bits) && c in g.fields && c in g.pointerful && slot < |g.fields[c]| && !bits[c].Free()
    requires value == NULL || value in bits
    ensures GraphOk(WriteField(g, bits, c, slot, value), bits)
  {
    var g' := WriteField(g, bits, c, slot, value);
    forall o | o in bits ensures PointersIn(g'.fields[o], bits.Keys) {
      assert PointersIn(g.fields[o], bits.Keys);
    }
  }

  lemma StoreTricolor(g: Graph, m: Marks, c: Obj, slot: nat, value: Obj)
    requires Tricolor(g, m) && NULL !in m.bits
    requires c in g.fields && c in m.bits && slot < |g.fields[c]|
    ensures Tricolor(WriteField(g, m.bits, c, slot, value), m) <==> !Harmful(m, c, value)
  {
    var g' := WriteField(g, m.bits, c, slot, value);
    if Harmful(m, c, value) {
      assert g'.fields[c][slot] == value;
      assert !Closed(g', m.bits, c);
    } else if !m.overflow {
      forall o | o in m.bits && o in g'.fields && m.bits[o].Black() ensures Closed(g', m.bits, o) {
        assert Closed(g, m.bits, o);
      }
    }
  }

  // ----- allocation -----

  lemma AllocStacks(g: Graph, m: Marks, o: Obj, hasPointers: bool, size: nat)
    requires GraphOk(g, m.bits) && StacksOk(g, m) && OnlyObjects(m.inc) && MayAllocate(g, m, o, hasPointers)
    requires m.resurrected == {}
    ensures StacksOk(AllocGraph(g, o, hasPointers, size), AllocMarks(m, o))
  {
    var m' := AllocMarks(m, o);
    forall x | x in m'.bits ensures Occurrences(m', x) == (if m'.bits[x].Queued() then 1 else 0) + m'.again[x] {
      if x in m.bits {
        assert Occurrences(m, x) == (if m.bits[x].Queued() then 1 else 0) + m.again[x];
      } else {
        NotOnStacks(g, m, x);
      }
      assert Occurrences(m', x) == Occurrences(m, x);
    }
  }

  lemma NotOnStacks(g: Graph, m: Marks, x: Obj)
    requires StacksOk(g, m) && x !in m.bits
    ensures Occurrences(m, x) == 0
  {
    assert GCObject(x) !in m.inc;
    assert x !in m.bar;
  }

  lemma AllocGraphOk(g: Graph, m: Marks, o: Obj, hasPointers: bool, size: nat)
    requires GraphOk(g, m.bits) && MayAllocate(g, m, o, hasPointers)
    ensures GraphOk(AllocGraph(g, o, hasPointers, size), AllocMarks(m, o).bits)
  {
    var g', bits := AllocGraph(g, o, hasPointers, size), AllocMarks(m, o).bits;
    forall x | x in bits ensures PointersIn(g'.fields[x], bits.Keys) {
      if x != o { assert PointersIn(g.fields[x], m.bits.Keys); }
    }
    forall i | 0 <= i < |g'.roots| ensures PointersIn(g'.roots[i].ptrs, bits.Keys) {
      assert PointersIn(g.roots[i].ptrs, m.bits.Keys);
    }
  }

  lemma AllocTricolor(g: Graph, m: Marks, o: Obj, hasPointers: bool, size: nat)
    requires GraphOk(g, m.bits) && Tricolor(g, m) && MayAllocate(g, m, o, hasPointers)
    ensures Tricolor(AllocGraph(g, o, hasPointers, size), AllocMarks(m, o))
  {
    var g', m' := AllocGraph(g, o, hasPointers, size), AllocMarks(m, o);
    if !m'.overflow {
      forall b | b in m'.bits && b in g'.fields && m'.bits[b].Black() ensures Closed(g', m'.bits, b) {
        assert Closed(g, m.bits, b);
        assert PointersIn(g.fields[b], m.bits.Keys);
      }
    }
  }

  lemma AllocConfined(g: Graph, m: Marks, o: Obj, hasPointers: bool, size: nat, allowed: set<Obj>)
    requires Confined(g, m.bits, allowed)
    ensures Confined(AllocGraph(g, o, hasPointers, size), AllocMarks(m, o).bits, allowed + {o})
  {
    var g', s := AllocGraph(g, o, hasPointers, size), allowed + {o};
    forall x | x in s && x in g'.fields ensures PointersIn(g'.fields[x], s) {
      if x != o { assert PointersIn(g.fields[x], allowed); }
    }
    forall i | 0 <= i < |g'.roots| ensures PointersIn(g'.roots[i].ptrs, s) {
      assert PointersIn(g.roots[i].ptrs, allowed);
    }
  }

  /** Allocation during marking is white, and still loses nothing. */
  lemma AllocKeeps(g: Graph, m: Marks, o: Obj, hasPointers: bool, size: nat, allowed: set<Obj>)
    requires Invariant(g, m, allowed) && MayAllocate(g, m, o, hasPointers) && m.resurrected == {}
    ensures Invariant(AllocGraph(g, o, hasPointers, size), AllocMarks(m, o), allowed + {o})
  {
    AllocStacks(g, m, o, hasPointers, size);
    AllocGraphOk(g, m, o, hasPointers, size);
    AllocTricolor(g, m, o, hasPointers, size);
    AllocConfined(g, m, o, hasPointers, size, allowed);
  }

  // ----- explicit deletion -----

  lemma FreeStacks(g: Graph, m: Marks, o: Obj)
    requires StacksOk(g, m) && o in m.bits && o in g.fields && m.resurrected == {}
    ensures StacksOk(FreeGraph(g, m.bits, o), FreeMarks(m, o))
  {
    var g' := FreeGraph(g, m.bits, o);
    if !m.bits[o].Queued() {
      assert o !in m.again;
      StacksSet(g, m, o, FREE, m.overflow);
    }
    StacksGraph(g, g', FreeMarks(m, o));
  }

  lemma ClearGraphOk(g: Graph, bits: map<Obj, Bits>, o: Obj)
    requires GraphOk(g, bits) && o in bits
    ensures GraphOk(ClearGraph(g, o), bits)
  {
    var g' := ClearGraph(g, o);
    forall x | x in bits ensures PointersIn(g'.fields[x], bits.Keys) {
      assert PointersIn(g.fields[x], bits.Keys);
    }
    forall x | x in bits && (x !in g'.pointerful || bits[x].Free()) ensures PointersIn(g'.fields[x], {}) {
      if x != o { assert PointersIn(g.fields[x], {}); }
    }
  }

  lemma FreeGraphOk(g: Graph, m: Marks, o: Obj)
    requires GraphOk(g, m.bits) && o in m.bits
    ensures GraphOk(FreeGraph(g, m.bits, o), FreeMarks(m, o).bits)
  {
    ClearGraphOk(g, m.bits, o);
    ClearedPointers(g, o);
    hide ClearGraph, FieldsInto;
    if !m.bits[o].Queued() { FreedGraphOk(ClearGraph(g, o), m.bits, o); }
  }

  lemma FreedGraphOk(g: Graph, bits: map<Obj, Bits>, o: Obj)
    requires GraphOk(g, bits) && o in bits && PointersIn(g.fields[o], {}) && o !in g.weak
    ensures GraphOk(g.(dangling := g.dangling + FieldsInto(g, o)), bits[o := FREE])
  {
    FreedDangles(g, bits, o);
    hide FieldsInto, FreeDangle;
    assert bits[o := FREE].Keys == bits.Keys;
  }

  lemma ClearedPointers(g: Graph, o: Obj)
    requires o in g.fields
    ensures o in ClearGraph(g, o).fields && PointersIn(ClearGraph(g, o).fields[o], {})
  {
  }

  lemma FreedDangles(g: Graph, bits: map<Obj, Bits>, o: Obj)
    requires FreeDangle(g, bits) && o in bits
    ensures FreeDangle(g.(dangling := g.dangling + FieldsInto(g, o)), bits[o := FREE])
  {
    forall x, i: nat | x in g.fields && i < |g.fields[x]| && g.fields[x][i] in bits && bits[o := FREE][g.fields[x][i]].Free()
      ensures (x, i) in g.dangling + FieldsInto(g, o)
    {
      if g.fields[x][i] == o { assert (x, i) in FieldsInto(g, o); }
    }
  }

  /** Clearing an object, and excusing more of its neighbours' pointers, closes no fewer objects. */
  lemma ClearTricolor(g: Graph, m: Marks, o: Obj)
    requires Tricolor(g, m) && o in g.fields && NULL !in m.bits
    ensures Tricolor(ClearGraph(g, o), m)
  {
    var g' := ClearGraph(g, o);
    if !m.overflow {
      forall b | b in m.bits && b in g'.fields && m.bits[b].Black() ensures Closed(g', m.bits, b) {
        assert Closed(g, m.bits, b);
      }
    }
  }

  lemma FreeTricolor(g: Graph, m: Marks, o: Obj)
    requires GraphOk(g, m.bits) && Tricolor(g, m) && o in m.bits
    ensures Tricolor(FreeGraph(g, m.bits, o), FreeMarks(m, o))
  {
    ClearTricolor(g, m, o);
    var g1, g', m' := ClearGraph(g, o), FreeGraph(g, m.bits, o), FreeMarks(m, o);
    if !m'.overflow {
      forall b | b in m'.bits && b in g'.fields && m'.bits[b].Black() ensures Closed(g', m'.bits, b) {
        assert Closed(g1, m.bits, b);
      }
    }
  }

  lemma ClearConfined(g: Graph, bits: map<Obj, Bits>, o: Obj, allowed: set<Obj>)
    requires Confined(g, bits, allowed) && o in g.fields
    ensures Confined(ClearGraph(g, o), bits, allowed)
  {
    var g' := ClearGraph(g, o);
    forall x | x in allowed && x in g'.fields ensures PointersIn(g'.fields[x], allowed) {
      assert PointersIn(g.fields[x], allowed);
    }
  }

  lemma FreeConfined(g: Graph, m: Marks, o: Obj, allowed: set<Obj>)
    requires Confined(g, m.bits, allowed) && o in m.bits && o in g.fields
    ensures Confined(FreeGraph(g, m.bits, o), FreeMarks(m, o).bits, allowed)
  {
    ClearConfined(g, m.bits, o, allowed);
  }

  lemma FreeKeeps(g: Graph, m: Marks, o: Obj, allowed: set<Obj>)
    requires Invariant(g, m, allowed) && o in m.bits && o in g.fields && m.resurrected == {}
    ensures Invariant(FreeGraph(g, m.bits, o), FreeMarks(m, o), allowed)
  {
    FreeStacks(g, m, o);
    FreeGraphOk(g, m, o);
    FreeTricolor(g, m, o);
    FreeConfined(g, m, o, allowed);
    hide GraphOk, StacksOk, TricolorExcept, Confined, OnlyObjects, FreeGraph;
  }

  /** An object that is dying anyway is only cleared. */
  lemma ClearKeeps(g: Graph, m: Marks, o: Obj, allowed: set<Obj>)
    requires Invariant(g, m, allowed) && o in m.bits && o in g.fields
    ensures Invariant(ClearGraph(g, o), m, allowed)
  {
    assert NULL !in m.bits;
    hide GraphOk, StacksOk, TricolorExcept, Confined;
    StacksGraph(g, ClearGraph(g, o), m);
    ClearGraphOk(g, m.bits, o);
    ClearTricolor(g, m, o);
    ClearConfined(g, m.bits, o, allowed);
  }

  // ----- weak references -----

  /** The program can get at a weakly held object without a pointer to it. */
  lemma WeakKeeps(g: Graph, m: Marks, o: Obj, allowed: set<Obj>)
    requires Invariant(g, m, allowed) && o in m.bits && o in allowed && !m.bits[o].Free()
    ensures Invariant(WeakGraph(g, o), m, allowed)
  {
    hide StacksOk, GraphOk, TricolorExcept, Confined, OnlyObjects;
    StacksGraph(g, WeakGraph(g, o), m);
    TricolorFrame(g, WeakGraph(g, o), m);
    GraphFrame(g, WeakGraph(g, o), m.bits, allowed) by { WeakParts(g, m.bits, o, allowed); }
  }

  lemma WeakParts(g: Graph, bits: map<Obj, Bits>, o: Obj, allowed: set<Obj>)
    requires GraphOk(g, bits) && Confined(g, bits, allowed) && g.weak <= allowed
    requires o in bits && o in allowed && !bits[o].Free()
    ensures var g' := WeakGraph(g, o);
      RootPointersIn(g', bits.Keys) && RootPointersIn(g', allowed) && WeakOk(g', bits) && g'.weak <= allowed
  {
  }

  /** As long as no field changes, only the starting points have to be looked at. */
  lemma GraphFrame(g: Graph, g': Graph, bits: map<Obj, Bits>, allowed: set<Obj>)
    requires GraphOk(g, bits) && Confined(g, bits, allowed)
    requires g'.fields == g.fields && g'.dangling == g.dangling && g'.pointerful == g.pointerful && g'.order == g.order
    requires RootPointersIn(g', bits.Keys) && RootPointersIn(g', allowed) && WeakOk(g', bits) && g'.weak <= allowed
    ensures GraphOk(g', bits) && Confined(g', bits, allowed)
  {
    hide RootPointersIn;
  }

  lemma TricolorFrame(g: Graph, g': Graph, m: Marks)
    requires Tricolor(g, m) && g'.fields == g.fields && g'.dangling == g.dangling
    ensures Tricolor(g', m)
  {
    if !m.overflow {
      forall b | b in m.bits && b in g'.fields && m.bits[b].Black() ensures Closed(g', m.bits, b) {
        assert Closed(g, m.bits, b);
      }
    }
  }

  /** A weak reference is read before the sweep: its object, if it has no mark, is pushed. */
  function Resurrect(m: Marks, o: Obj, ok: bool): Marks
    requires o in m.bits
  {
    if m.bits[o].mark then m
    else
      PushGCObject(m.(bits := m.bits[o := QUEUED], resurrected := m.resurrected + {o},
                      again := if m.bits[o].Queued() then m.again + multiset{o} else m.again), o, ok)
  }

  /** The objects that are marked, or on the mark stack and so will be. */
  function Pending(m: Marks): set<Obj> {
    set o | o in m.bits && !m.bits[o].Free() && (m.bits[o].mark || GCObject(o) in m.inc)
  }

  /** Its stacks, after each of the four outcomes. */
  lemma ResurrectStacks(g: Graph, m: Marks, o: Obj, ok: bool)
    requires StacksOk(g, m) && OnlyObjects(m.inc) && o in m.bits && !m.bits[o].Free()
    ensures StacksOk(g, Resurrect(m, o, ok)) && OnlyObjects(Resurrect(m, o, ok).inc)
  {
    if !m.bits[o].mark {
      hide CountsOk, AgainOk, Resurrect, OnlyObjects;
      ResurrectAgain(m, o, ok);
      ResurrectIs(m, o, ok);
      ResurrectCount(m, o, ok);
      ResurrectItems(g, m, Resurrect(m, o, ok), o, ok);
    }
  }

  lemma ResurrectCount(m: Marks, o: Obj, ok: bool)
    requires CountsOk(m) && o in m.bits && !m.bits[o].mark
    ensures CountsOk(Resurrect(m, o, ok))
  {
    hide Resurrect, Occurrences;
    ResurrectIs(m, o, ok);
    var m' := Resurrect(m, o, ok);
    forall x | x in m'.bits ensures Occurrences(m', x) == (if m'.bits[x].Queued() then 1 else 0) + m'.again[x] {
      ResurrectCounts(m, o, ok, x);
      assert Occurrences(m, x) == (if m.bits[x].Queued() then 1 else 0) + m.again[x];
    }
  }

  /** The rest of what StacksOk says. */
  lemma ResurrectItems(g: Graph, m: Marks, m': Marks, o: Obj, ok: bool)
    requires StacksOk(g, m) && OnlyObjects(m.inc) && o in m.bits && CountsOk(m') && AgainOk(m')
    requires m'.bits == m.bits[o := if ok then QUEUED else WHITE] && m'.bar == m.bar
    requires m'.resurrected == m.resurrected + {o}
    requires m'.inc == (if ok then m.inc + [GCObject(o)] else m.inc)
    ensures StacksOk(g, m') && OnlyObjects(m'.inc)
  {
    hide CountsOk, AgainOk;
  }

  lemma ResurrectAgain(m: Marks, o: Obj, ok: bool)
    requires AgainOk(m) && o in m.bits && !m.bits[o].mark
    ensures AgainOk(Resurrect(m, o, ok))
  {
    ResurrectIs(m, o, ok);
    hide Resurrect;
    var m' := Resurrect(m, o, ok);
    forall x | x in m'.again ensures x in m'.bits && x in m'.resurrected && !m'.bits[x].Free() {
      assert x == o || x in m.again;
    }
  }

  lemma ResurrectIs(m: Marks, o: Obj, ok: bool)
    requires o in m.bits && !m.bits[o].mark
    ensures var m' := Resurrect(m, o, ok);
      && m'.bits == m.bits[o := if ok then QUEUED else WHITE] && m'.bar == m.bar && m'.overflow == (m.overflow || !ok)
      && m'.inc == (if ok then m.inc + [GCObject(o)] else m.inc) && m'.resurrected == m.resurrected + {o}
      && m'.again == (if m.bits[o].Queued() then m.again + multiset{o} else m.again)
  {
    assert m.bits[o := QUEUED][o := WHITE] == m.bits[o := WHITE];
  }

  lemma ResurrectCounts(m: Marks, o: Obj, ok: bool, x: Obj)
    requires o in m.bits && !m.bits[o].mark
    ensures Occurrences(Resurrect(m, o, ok), x) == Occurrences(m, x) + if x == o && ok then 1 else 0
  {
    ResurrectIs(m, o, ok);
    hide Resurrect;
  }

  /**
   Reading a weak reference keeps the invariant; the object will be marked if and only if the push
   was accepted or it would be anyway.
   */
  lemma ResurrectKeeps(g: Graph, m: Marks, o: Obj, ok: bool, allowed: set<Obj>)
    requires Invariant(g, m, allowed) && o in m.bits && o in allowed && !m.bits[o].Free()
    ensures Invariant(g, Resurrect(m, o, ok), allowed)
    ensures var m' := Resurrect(m, o, ok);
      && StillDue(m, m') && m'.bits.Keys == m.bits.Keys && m'.bar == m.bar && MarksStay(m.bits, m'.bits)
      && Pending(m') == Pending(m) + (if ok then {o} else {})
  {
    hide GraphOk, StacksOk, TricolorExcept, Confined, OnlyObjects, StillDue;
    ResurrectStacks(g, m, o, ok);
    ResurrectGraph(g, m, o, ok);
    ResurrectTricolor(g, m, o, ok);
    ResurrectDue(m, o, ok);
  }

  lemma ResurrectDue(m: Marks, o: Obj, ok: bool)
    requires o in m.bits && !m.bits[o].Free()
    ensures var m' := Resurrect(m, o, ok);
      && StillDue(m, m') && m'.bits.Keys == m.bits.Keys && m'.bar == m.bar && MarksStay(m.bits, m'.bits)
      && m'.resurrected <= m.resurrected + {o}
  {
    if !m.bits[o].mark {
      ResurrectIs(m, o, ok);
      hide Resurrect;
      assert ok ==> Resurrect(m, o, ok).inc[|m.inc|] == GCObject(o);
    }
    StillDueMore(m, Resurrect(m, o, ok));
  }

  /** A mark, once set, is not lost, and no slot becomes free or is handed out. */
  ghost predicate MarksStay(a: map<Obj, Bits>, b: map<Obj, Bits>) {
    b.Keys == a.Keys && forall o :: o in a ==> (a[o].mark ==> b[o] == a[o]) && (a[o].Free() <==> b[o].Free())
  }

  lemma ResurrectGraph(g: Graph, m: Marks, o: Obj, ok: bool)
    requires GraphOk(g, m.bits) && o in m.bits && !m.bits[o].Free()
    ensures GraphOk(g, Resurrect(m, o, ok).bits)
    ensures forall allowed :: Confined(g, m.bits, allowed) && o in allowed ==>
      Confined(g, Resurrect(m, o, ok).bits, allowed)
  {
    var bits := Resurrect(m, o, ok).bits;
    assert bits.Keys == m.bits.Keys;
    forall x | x in bits && (x !in g.pointerful || bits[x].Free()) ensures PointersIn(g.fields[x], {}) {
      assert bits[x].Free() ==> m.bits[x].Free();
    }
  }

  lemma ResurrectTricolor(g: Graph, m: Marks, o: Obj, ok: bool)
    requires Tricolor(g, m) && o in m.bits
    ensures Tricolor(g, Resurrect(m, o, ok))
  {
    var m' := Resurrect(m, o, ok);
    if !m'.overflow {
      forall b | b in m'.bits && b in g.fields && m'.bits[b].Black() ensures Closed(g, m'.bits, b) {
        assert Closed(g, m.bits, b);
      }
    }
  }

  // ----- roots and stack -----

  lemma RootsKeep(g: Graph, g': Graph, m: Marks, allowed: set<Obj>)
    requires Invariant(g, m, allowed)
    requires g' == g.(roots := g'.roots, nativeStack := g'.nativeStack)
    requires RootPointersIn(g', m.bits.Keys) && RootPointersIn(g', allowed)
    ensures Invariant(g', m, allowed)
  {
    hide StacksOk, GraphOk, TricolorExcept, Confined, OnlyObjects, RootPointersIn;
    StacksGraph(g, g', m);
    TricolorFrame(g, g', m);
    GraphFrame(g, g', m.bits, allowed) by { WeakKnown(g, m.bits, allowed); }
  }

  lemma WeakKnown(g: Graph, bits: map<Obj, Bits>, allowed: set<Obj>)
    requires GraphOk(g, bits) && g.weak <= allowed
    ensures WeakOk(g, bits) && g.weak <= allowed
  {
  }

  /** Everything the program can get at is a known object of this cycle. */
  lemma ObtainableIsAllowed(g: Graph, m: Marks, allowed: set<Obj>)
    requires Sound(g, m, allowed) && g.weak <= allowed
    ensures forall o :: Obtainable(g, o) ==> o in allowed && o in m.bits
  {
    hide StacksOk;
    forall x, i: nat | x in allowed && x in g.fields && i < |g.fields[x]| && g.fields[x][i] != NULL
      ensures g.fields[x][i] in allowed
    {
      assert PointersIn(g.fields[x], allowed);
    }
    ClosedHoldsObtainable(g, allowed);
    GraphObtainable(g, m.bits);
  }

  lemma GraphObtainable(g: Graph, bits: map<Obj, Bits>)
    requires GraphOk(g, bits)
    ensures forall o :: Obtainable(g, o) ==> o in bits
  {
    forall x, i: nat | x in bits.Keys && x in g.fields && i < |g.fields[x]| && g.fields[x][i] != NULL
      ensures g.fields[x][i] in bits.Keys
    {
      assert PointersIn(g.fields[x], bits.Keys);
    }
    ClosedHoldsObtainable(g, bits.Keys);
  }

  // ----- between cycles -----

  /** No cycle under way: nothing queued, nothing marked. */
  ghost predicate Idle(g: Graph, m: Marks) {
    && GraphOk(g, m.bits)
    && m.inc == [] && m.bar == [] && !m.overflow && m.resurrected == {} && m.again == multiset{}
    && forall o :: o in m.bits ==> m.bits[o].White() || m.bits[o].Free()
  }

  /** The start of a cycle: the obtainable objects are the only ones it may mark. */
  lemma CycleStart(g: Graph, m: Marks)
    requires Idle(g, m)
    ensures Invariant(g, m, ObtainableSet(g))
  {
    ObtainableSetConfines(g, m.bits);
    forall x | x in m.bits ensures Occurrences(m, x) == (if m.bits[x].Queued() then 1 else 0) + m.again[x] {
    }
  }

  function SweptBits(bits: map<Obj, Bits>): map<Obj, Bits> {
    map o | o in bits :: if bits[o].Black() then WHITE else FREE
  }

  function SweptFields(fields: map<Obj, seq<Obj>>, bits: map<Obj, Bits>): (f: map<Obj, seq<Obj>>)
    ensures f.Keys == fields.Keys
    ensures forall o :: o in f ==>
      |f[o]| == |fields[o]| && (f[o] == fields[o] || forall i :: 0 <= i < |f[o]| ==> f[o][i] == NULL)
  {
    map o | o in fields :: if o in bits && bits[o].Black() then fields[o] else Zeros(|fields[o]|)
  }

  /** What is left of the graph: the contents of marked objects, and weak references to them. */
  function SweptGraph(g: Graph, bits: map<Obj, Bits>): Graph {
    g.(fields := SweptFields(g.fields, bits), weak := SweptWeak(g.weak, bits))
  }

  /** MarkOrClearWeakRefs: weak references to unmarked objects are cleared. */
  function SweptWeak(weak: set<Obj>, bits: map<Obj, Bits>): set<Obj> {
    set o | o in weak && o in bits && bits[o].mark
  }

  lemma SweptIs(g: Graph, m: Marks)
    ensures SweptGraph(g, m.bits) == g.(fields := SweptFields(g.fields, m.bits), weak := SweptWeak(g.weak, m.bits))
    ensures SweptMarks(m) == m.(bits := SweptBits(m.bits), resurrected := {}, again := multiset{})
  {
  }

  /** Which weak references are left, as bits before and after the sweep tell. */
  lemma WeakLeft(g: Graph, m: Marks, allowed: set<Obj>)
    requires Invariant(g, m, allowed)
    ensures forall o :: o in SweptGraph(g, m.bits).weak <==> o in g.weak && o in m.bits && m.bits[o].mark
    ensures forall o :: o in SweptGraph(g, m.bits).weak <==>
      o in g.weak && o in SweptBits(m.bits) && !SweptBits(m.bits)[o].Free()
  {
    WeakIsAllowed(g, m, allowed);
    hide Invariant;
  }

  function SweptMarks(m: Marks): Marks {
    m.(bits := SweptBits(m.bits), resurrected := {}, again := multiset{})
  }

  lemma SweepIdle(g: Graph, m: Marks, allowed: set<Obj>)
    requires Invariant(g, m, allowed) && m.inc == [] && m.bar == [] && !m.overflow
    ensures Idle(SweptGraph(g, m.bits), SweptMarks(m))
  {
    NothingQueued(g, m);
    hide StacksOk, Confined, OnlyObjects;
    SweepGraph(g, m);
  }

  lemma NothingQueued(g: Graph, m: Marks)
    requires StacksOk(g, m) && m.inc == [] && m.bar == []
    ensures forall o :: o in m.bits ==> !m.bits[o].Queued()
  {
    forall o | o in m.bits ensures !m.bits[o].Queued() {
      assert Occurrences(m, o) == 0;
    }
  }

  lemma SweepGraph(g: Graph, m: Marks)
    requires GraphOk(g, m.bits) && Tricolor(g, m) && !m.overflow && forall o :: o in m.bits ==> !m.bits[o].Queued()
    ensures GraphOk(SweptGraph(g, m.bits), SweptBits(m.bits))
  {
    var g', before, bits := SweptGraph(g, m.bits), m.bits, SweptBits(m.bits);
    assert bits.Keys == before.Keys;
    assert g'.fields.Keys == g.fields.Keys;
    forall x | x in bits ensures PointersIn(g'.fields[x], bits.Keys) {
      assert PointersIn(g.fields[x], before.Keys);
    }
    forall x | x in bits && (x !in g'.pointerful || bits[x].Free()) ensures PointersIn(g'.fields[x], {}) {
      if bits[x].White() { assert PointersIn(g.fields[x], {}); }
    }
    forall x, i: nat | x in g'.fields && i < |g'.fields[x]| && g'.fields[x][i] in bits && bits[g'.fields[x][i]].Free()
      ensures (x, i) in g'.dangling
    {
      if before[x].Black() { assert Closed(g, before, x); }
    }
  }

  lemma IdleStore(g: Graph, m: Marks, c: Obj, slot: nat, value: Obj)
    requires Idle(g, m) && c in g.fields && c in g.pointerful && slot < |g.fields[c]| && !m.bits[c].Free()
    requires value == NULL || value in m.bits
    ensures Idle(WriteField(g, m.bits, c, slot, value), m)
  {
    StoreGraph(g, m.bits, c, slot, value);
  }

  lemma IdleAlloc(g: Graph, m: Marks, o: Obj, hasPointers: bool, size: nat)
    requires Idle(g, m) && MayAllocate(g, m, o, hasPointers)
    ensures Idle(AllocGraph(g, o, hasPointers, size), AllocMarks(m, o))
  {
    AllocGraphOk(g, m, o, hasPointers, size);
  }

  lemma IdleFree(g: Graph, m: Marks, o: Obj)
    requires Idle(g, m) && o in m.bits
    ensures Idle(FreeGraph(g, m.bits, o), FreeMarks(m, o))
  {
    FreeGraphOk(g, m, o);
  }

  lemma IdleWeak(g: Graph, m: Marks, o: Obj)
    requires Idle(g, m) && o in m.bits && !m.bits[o].Free()
    ensures Idle(WeakGraph(g, o), m)
  {
  }

  /** New roots all of whose pointers could be had before. */
  lemma NewRoots(g: Graph, g': Graph, s: set<Obj>)
    requires g' == g.(roots := g'.roots, nativeStack := g'.nativeStack)
    requires forall o :: IsRoot(g', o) && o != NULL ==> o in s
    requires PointersIn(g.gcRoots, s)
    ensures RootPointersIn(g', s)
  {
    forall i | 0 <= i < |g'.nativeStack| && g'.nativeStack[i] != NULL ensures g'.nativeStack[i] in s {
      assert IsRoot(g', g'.nativeStack[i]);
    }
    forall i | 0 <= i < |g'.roots| ensures PointersIn(g'.roots[i].ptrs, s) {
      var ptrs := g'.roots[i].ptrs;
      forall j | 0 <= j < |ptrs| && ptrs[j] != NULL ensures ptrs[j] in s {
        assert IsRoot(g', ptrs[j]);
      }
    }
  }

  // ----- facts for the collector's methods -----

  lemma StoreReady(g: Graph, m: Marks, marking: bool, allowed: set<Obj>)
    requires if marking then Invariant(g, m, allowed) else Idle(g, m)
    ensures m.bits.Keys == g.fields.Keys && NULL !in m.bits
    ensures forall o :: Obtainable(g, o) ==> o in m.bits
    ensures marking ==> forall o :: Obtainable(g, o) ==> o in allowed
  {
    GraphObtainable(g, m.bits);
    if marking { ObtainableIsAllowed(g, m, allowed); }
  }

  lemma StoreDuring(g: Graph, m: Marks, c: Obj, slot: nat, value: Obj, allowed: set<Obj>)
    requires Invariant(g, m, allowed)
    requires c in g.fields && c in m.bits && c in g.pointerful && slot < |g.fields[c]|
    requires !m.bits[c].Free() && (value == NULL || (value in g.fields && value in allowed))
    ensures Invariant(WriteField(g, m.bits, c, slot, value), m, allowed) <==> !Harmful(m, c, value)
  {
    StoreKeeps(g, m, c, slot, value, allowed);
  }

  lemma TrappedIsHarmless(m: Marks, c: Obj, value: Obj)
    requires c in m.bits && !m.bits[c].Black()
    ensures !Harmful(m, c, value)
  {
  }

  lemma IdleHasNoQueued(g: Graph, m: Marks, o: Obj)
    ensures Idle(g, m) && o in m.bits ==> !m.bits[o].Queued()
  {
  }

  lemma RootsReady(g: Graph, g': Graph, m: Marks, marking: bool, allowed: set<Obj>)
    requires if marking then Invariant(g, m, allowed) else Idle(g, m)
    requires g' == g.(roots := g'.roots, nativeStack := g'.nativeStack)
    requires forall o :: IsRoot(g', o) && o != NULL ==> Obtainable(g, o)
    ensures if marking then Invariant(g', m, allowed) else Idle(g', m)
  {
    GraphObtainable(g, m.bits);
    NewRoots(g, g', m.bits.Keys);
    if marking {
      ObtainableIsAllowed(g, m, allowed);
      NewRoots(g, g', allowed);
      RootsKeep(g, g', m, allowed);
    }
  }

  lemma OnwardStart(m: Marks)
    ensures Onward(m, m)
  {
  }

  /** What the first `rounds` rounds of an increment have come to. */
  ghost predicate Rounds(m0: Marks, m: Marks, rounds: nat) {
    && Darker(m0.bits, m.bits) && NoMoreLeft(m0, m) && (m0.overflow ==> m.overflow)
    && Left(m) + rounds <= Left(m0)
    && (rounds > 0 ==> Left(m) + (if |m0.inc| < 100 then |m0.inc| else 100) <= Left(m0))
  }

  lemma RoundsStart(m: Marks)
    ensures Rounds(m, m, 0)
  {
  }

  lemma RoundsAre(m0: Marks, m: Marks, rounds: nat)
    requires Rounds(m0, m, rounds)
    ensures Darker(m0.bits, m.bits) && (m0.overflow ==> m.overflow) && Left(m) + rounds <= Left(m0)
    ensures rounds > 0 ==> LessLeft(m0, m) && Left(m) + (if |m0.inc| < 100 then |m0.inc| else 100) <= Left(m0)
  {
    hide Left, LessLeft, NoMoreLeft;
    LessIsLeft(m0, m);
  }

  /** Work that only changes its place is no less. */
  lemma RoundsMoved(m0: Marks, m: Marks, m': Marks, rounds: nat)
    requires Rounds(m0, m, rounds) && m'.bits == m.bits && m'.again == m.again && m'.overflow == m.overflow
    ensures Rounds(m0, m', rounds)
  {
  }

  lemma RoundMade(m0: Marks, m: Marks, m': Marks, rounds: nat, turns: nat)
    requires Rounds(m0, m, rounds) && Onward(m, m') && Left(m') + turns <= Left(m)
    requires m.inc != [] && turns == (if |m.inc| < 100 then |m.inc| else 100)
    requires rounds == 0 ==> |m.inc| >= |m0.inc|
    ensures Rounds(m0, m', rounds + 1)
  {
    hide Left;
    DarkerTransitive(m0.bits, m.bits, m'.bits);
    DarkerUnmarked(m.bits, m'.bits);
    hide Darker, Unmarked;
  }

  /** Nine segments below the top one are as many as it takes more than nine segments' items to fill. */
  lemma InactiveSegments(n: nat, items: Positive)
    ensures n > 0 ==> (if (n - 1) / items < 9 then n <= 9 * items else n > 9 * items)
    ensures n > 0 ==> (n - 1) / items * items < n <= (n - 1) / items * items + items
  {
    if n > 0 {
      var q := (n - 1) / items;
      assert q * items <= n - 1 < q * items + items;
      if q < 9 { assert q * items <= 8 * items; } else { assert q * items >= 9 * items; }
    }
  }

  /** The segment below the top one, cut out of a stack that has so many. */
  lemma CutSegment(bar: seq<Obj>, items: Positive, lo: nat)
    requires |bar| > 9 * items && lo == ((|bar| - 1) / items - 1) * items
    ensures items <= lo && lo + items <= |bar| <= lo + 2 * items && lo % items == 0
    ensures var moved, rest := bar[lo..lo + items], bar[..lo] + bar[lo + items..];
      |moved| == items && rest[..lo] + moved + rest[lo..] == bar
  {
    InactiveSegments(|bar|, items);
    var q := (|bar| - 1) / items;
    assert lo + items == q * items;
    assert lo == 7 * items + (q - 8) * items;
    ModUnique(lo, q - 1, 0, items);
  }

  lemma NothingMoved(inc: seq<Item>)
    ensures AsItems([]) + inc == inc
  {
  }

  lemma DarkerStart(bits: map<Obj, Bits>)
    ensures Darker(bits, bits)
  {
  }

  lemma MoveSegment(g: Graph, m: Marks, lo: nat, hi: nat, allowed: set<Obj>)
    requires Invariant(g, m, allowed) && lo <= hi <= |m.bar|
    ensures Invariant(g, m.(inc := AsItems(m.bar[lo..hi]) + m.inc, bar := m.bar[..lo] + m.bar[hi..]), allowed)
  {
    hide StacksOk, OnlyObjects;
    var rest, moved := m.bar[..lo] + m.bar[hi..], m.bar[lo..hi];
    assert m.bar == m.bar[..lo] + m.bar[lo..hi] + m.bar[hi..];
    StacksMove(g, m, rest, moved);
    Rearranged(g, m, m.(inc := AsItems(moved) + m.inc, bar := rest), allowed, {});
  }

  lemma MarksStayStart(bits: map<Obj, Bits>)
    ensures MarksStay(bits, bits)
  {
  }

  lemma MarksStayTransitive(a: map<Obj, Bits>, b: map<Obj, Bits>, c: map<Obj, Bits>)
    requires MarksStay(a, b) && MarksStay(b, c)
    ensures MarksStay(a, c)
  {
  }

  lemma DarkerMarksStay(a: map<Obj, Bits>, b: map<Obj, Bits>)
    requires Darker(a, b)
    ensures MarksStay(a, b)
  {
    forall o | o in a ensures (a[o].mark ==> b[o] == a[o]) && (a[o].Free() <==> b[o].Free()) {
      assert DarkerBits(a[o], b[o]);
    }
  }

  lemma StillDueStart(m: Marks)
    ensures StillDue(m, m)
  {
  }

  /** With both stacks empty, whatever was on the mark stack is marked. */
  lemma DueIsMarked(m: Marks, m': Marks)
    requires StillDue(m, m') && m'.inc == []
    ensures forall o :: GCObject(o) in m.inc ==> o in m'.bits && m'.bits[o].mark
  {
  }

  /**
   After the sweep: everything reachable, also from the objects of `read`, is there with
   its contents, and what is there was allowed to be marked.
   */
  lemma Survivors(g: Graph, m: Marks, m0: Marks, m1: Marks, read: seq<Obj>, allowed: set<Obj>)
    requires GraphOk(g, m0.bits) && MarkingDone(g, m0) && (forall o :: o in m0.bits ==> !m0.bits[o].Queued())
    requires Darker(m.bits, m0.bits) && MarksStay(m0.bits, m1.bits)
    requires Invariant(g, m1, allowed) && !m1.overflow && (forall o :: o in m1.bits ==> !m1.bits[o].Queued())
    requires forall o :: o in read ==> o in m1.bits && m1.bits[o].mark
    ensures forall o :: Reachable(g.(nativeStack := g.nativeStack + read), o) ==>
      && o in m.bits && o in SweptBits(m1.bits) && o in g.fields && o in SweptGraph(g, m1.bits).fields
      && (m.bits[o].Free() <==> SweptBits(m1.bits)[o].Free())
      && (!m.bits[o].Free() ==> SweptGraph(g, m1.bits).fields[o] == g.fields[o])
    ensures SweptBits(m1.bits).Keys == m.bits.Keys
    ensures forall o :: o in SweptBits(m1.bits) && SweptBits(m1.bits)[o].White() ==> o in allowed
  {
    hide GraphOk, Sound, TricolorExcept, OnlyObjects, RootPointersIn, MarkingDone, Reachable, Darker, MarkedSet,
      MarksStay;
    var g2 := g.(nativeStack := g.nativeStack + read);
    DoneRootsMarked(g, m0);
    DarkerMarksStay(m.bits, m0.bits);
    MarksStayTransitive(m.bits, m0.bits, m1.bits);
    ReadRoots(g, m0.bits, m1.bits, read);
    ReadGraph(g, m1, read, allowed);
    MarkedHoldReachable(g2, m1);
    SweptSurvivors(g, m, m1, allowed);
  }

  /** What the sweep leaves of marked objects, and how it knows them. */
  lemma SweptSurvivors(g: Graph, m: Marks, m1: Marks, allowed: set<Obj>)
    requires MarksStay(m.bits, m1.bits) && Sound(g, m1, allowed) && forall o :: o in m1.bits ==> !m1.bits[o].Queued()
    ensures forall o :: o in m1.bits && m1.bits[o].mark ==>
      && o in m.bits && o in SweptBits(m1.bits) && o in g.fields && o in SweptGraph(g, m1.bits).fields
      && (m.bits[o].Free() <==> SweptBits(m1.bits)[o].Free())
      && (!m.bits[o].Free() ==> SweptGraph(g, m1.bits).fields[o] == g.fields[o])
    ensures SweptBits(m1.bits).Keys == m.bits.Keys
    ensures forall o :: o in SweptBits(m1.bits) && SweptBits(m1.bits)[o].White() ==> o in allowed
  {
    assert g.fields.Keys == m1.bits.Keys;
    hide StacksOk, FreeDangle, RootPointersIn;
  }

  lemma ReadRoots(g: Graph, a: map<Obj, Bits>, b: map<Obj, Bits>, read: seq<Obj>)
    requires RootPointersIn(g, MarkedSet(a)) && MarksStay(a, b) && forall o :: o in read ==> o in b && b[o].mark
    ensures RootPointersIn(g.(nativeStack := g.nativeStack + read), MarkedSet(b))
  {
    assert MarkedSet(a) <= MarkedSet(b);
    forall i | 0 <= i < |g.roots| ensures PointersIn(g.roots[i].ptrs, MarkedSet(b)) {
      assert PointersIn(g.roots[i].ptrs, MarkedSet(a));
    }
    forall i | 0 <= i < |g.nativeStack + read| && (g.nativeStack + read)[i] != NULL
      ensures (g.nativeStack + read)[i] in MarkedSet(b)
    {
      if i >= |g.nativeStack| { assert (g.nativeStack + read)[i] in read; }
    }
  }

  lemma ReadGraph(g: Graph, m: Marks, read: seq<Obj>, allowed: set<Obj>)
    requires Sound(g, m, allowed) && Tricolor(g, m)
    requires RootPointersIn(g.(nativeStack := g.nativeStack + read), MarkedSet(m.bits))
    ensures GraphOk(g.(nativeStack := g.nativeStack + read), m.bits)
    ensures Tricolor(g.(nativeStack := g.nativeStack + read), m)
  {
    var g2 := g.(nativeStack := g.nativeStack + read);
    hide StacksOk;
    TricolorFrame(g, g2, m);
    hide TricolorExcept;
    assert FreeDangle(g2, m.bits);
    hide FreeDangle;
    forall i | 0 <= i < |g2.roots| ensures PointersIn(g2.roots[i].ptrs, m.bits.Keys) {
      assert PointersIn(g.roots[i].ptrs, m.bits.Keys);
    }
  }

  /** ReadWeakRef's body, in its parts. */
  lemma ResurrectBody(m: Marks, mid: Marks, o: Obj, ok: bool)
    requires o in m.bits && !m.bits[o].mark
    requires mid == m.(bits := m.bits[o := Bits(m.bits[o].mark, true)], resurrected := m.resurrected + {o},
                       again := if m.bits[o].Queued() then m.again + multiset{o} else m.again)
    ensures MarkSteps.PushGCObject(mid, o, ok) == Resurrect(m, o, ok)
  {
  }

  lemma ResurrectNot(m: Marks, o: Obj)
    requires o in m.bits
    ensures forall ok :: m.bits[o].mark ==> Resurrect(m, o, ok) == m
  {
  }

  /** A round that has to be repeated has got somewhere. */
  lemma RoundLess(m: Marks, m': Marks)
    requires m'.overflow ==> LessLeft(m, m')
    ensures m'.overflow ==>
      Unmarked(m'.bits) < Unmarked(m.bits) || (Unmarked(m'.bits) == Unmarked(m.bits) && m'.again < m.again)
    ensures NoMoreLeft(m, m') ==>
      Unmarked(m'.bits) < Unmarked(m.bits) || (Unmarked(m'.bits) == Unmarked(m.bits) && (m'.again < m.again || m'.again == m.again))
  {
    hide Unmarked;
    if m'.overflow { LessLeftIs(m, m'); }
  }

  lemma WriteFieldIs(g: Graph, bits: map<Obj, Bits>, c: Obj, slot: nat, value: Obj)
    requires c in g.fields && slot < |g.fields[c]|
    ensures var f: seq<Obj> := g.fields[c][slot := value];
      WriteField(g, bits, c, slot, value) ==
        g.(fields := g.fields[c := f], dangling := WriteField(g, bits, c, slot, value).dangling)
  {
  }

  lemma EmptyBarrier(m: Marks)
    ensures MayGo(m, OnBarrierStack)
  {
  }

  lemma AllocReady(g: Graph, m: Marks, o: Obj, hasPointers: bool, size: nat, marking: bool, allowed: set<Obj>)
    requires (if marking then Invariant(g, m, allowed) else Idle(g, m)) && MayAllocate(g, m, o, hasPointers)
    requires m.resurrected == {}
    ensures var g', m' := AllocGraph(g, o, hasPointers, size), AllocMarks(m, o);
      if marking then Invariant(g', m', allowed + {o}) else Idle(g', m')
  {
    hide Invariant, Idle, MayAllocate, AllocGraph, AllocMarks;
    if marking { AllocKeeps(g, m, o, hasPointers, size, allowed); } else { IdleAlloc(g, m, o, hasPointers, size); }
  }

  lemma AllocIs(g: Graph, m: Marks, o: Obj, hasPointers: bool, size: nat)
    ensures AllocMarks(m, o) == m.(bits := m.bits[o := WHITE])
    ensures AllocGraph(g, o, hasPointers, size) ==
      g.(fields := g.fields[o := Zeros(size)],
         pointerful := if hasPointers then g.pointerful + {o} else g.pointerful,
         order := if hasPointers && o !in g.order then g.order + [o] else g.order,
         nativeStack := g.nativeStack + [o], dangling := OtherFields(g.dangling, o))
  {
  }

  /** What is known of a new object. */
  lemma NewObjectIs(g: Graph, m: Marks, o: Obj, hasPointers: bool, size: nat)
    ensures var g', m' := AllocGraph(g, o, hasPointers, size), AllocMarks(m, o);
      && o in m'.bits && m'.bits[o].White() && o in g'.fields && |g'.fields[o]| == size && PointersIn(g'.fields[o], {})
      && g'.nativeStack == g.nativeStack + [o] && (hasPointers ==> o in g'.pointerful)
      && (forall e :: e in g'.dangling <==> e in g.dangling && e.0 != o)
      && (forall x :: x != o ==> (x in m'.bits <==> x in m.bits) && (x in m.bits ==> m'.bits[x] == m.bits[x]))
      && (forall x :: x != o ==> (x in g'.fields <==> x in g.fields) && (x in g.fields ==> g'.fields[x] == g.fields[x]))
  {
  }

  lemma NoPointers(size: nat)
    ensures PointersIn(Zeros(size), {})
  {
  }

  /** What becomes of an object that is deleted, or only cleared, and of the pointers to it. */
  lemma DeletedIs(g: Graph, m: Marks, o: Obj)
    requires o in g.fields && o in m.bits && o != NULL
    ensures var f := Zeros(|g.fields[o]|);
      && ClearGraph(g, o) ==
           g.(fields := g.fields[o := f], dangling := ClearGraph(g, o).dangling, weak := g.weak - {o})
      && FreeGraph(g, m.bits, o) ==
           g.(fields := g.fields[o := f], dangling := FreeGraph(g, m.bits, o).dangling, weak := g.weak - {o})
    ensures m.bits[o].Queued() ==> FreeGraph(g, m.bits, o) == ClearGraph(g, o)
    ensures FreeMarks(m, o) == if m.bits[o].Queued() then m else m.(bits := m.bits[o := FREE])
    ensures forall e :: e in ClearGraph(g, o).dangling <==> e in g.dangling && e.0 != o
    ensures !m.bits[o].Queued() ==>
      forall x, i: nat :: (x, i) in FreeGraph(g, m.bits, o).dangling <==>
        x != o && ((x, i) in g.dangling || (x in g.fields && i < |g.fields[x]| && g.fields[x][i] == o))
  {
  }

  lemma WeakIsAllowed(g: Graph, m: Marks, allowed: set<Obj>)
    requires Invariant(g, m, allowed)
    ensures (forall o :: o in g.weak ==> o in m.bits && !m.bits[o].Free()) && g.weak <= allowed
  {
    hide StacksOk;
  }

  /** At all times a weak reference leads to an object. */
  lemma WeakInGraph(g: Graph, m: Marks, marking: bool, allowed: set<Obj>)
    requires if marking then Invariant(g, m, allowed) else Idle(g, m)
    ensures forall o :: o in g.weak ==> o in m.bits && !m.bits[o].Free()
  {
    if marking { WeakIsAllowed(g, m, allowed); }
  }

  lemma RoundDarker(m: Marks, m': Marks)
    requires Passing(m.(overflow := false), m')
    ensures StillDue(m, m') && Darker(m.bits, m'.bits)
  {
  }

  lemma NothingLeftQueued(g: Graph, m: Marks, allowed: set<Obj>)
    requires Invariant(g, m, allowed) && m.inc == [] && m.bar == []
    ensures forall o :: o in m.bits ==> !m.bits[o].Queued()
  {
    NothingQueued(g, m);
  }

  lemma SoundGraph(g: Graph, m: Marks, allowed: set<Obj>)
    requires Sound(g, m, allowed)
    ensures GraphOk(g, m.bits)
  {
  }

  lemma SweptSame(m: Marks, m0: Marks, m1: Marks)
    requires Darker(m.bits, m0.bits) && MarksStay(m0.bits, m1.bits)
    ensures SweptBits(m1.bits).Keys == m.bits.Keys
    ensures forall o :: o in SweptBits(m1.bits) ==> SweptBits(m1.bits)[o].White() || SweptBits(m1.bits)[o].Free()
  {
  }

  // ----- an object that is read and lost -----

  /** Two objects that are held weakly, and that nothing points to. */
  ghost function TwoWeaklyHeld(): Graph {
    Graph(map[1 := [NULL], 2 := [NULL]], {1, 2}, [1, 2], [], [], [], {}, {1, 2})
  }

  lemma TwoWeaklyHeldDone(m: Marks, one: Bits)
    requires m == m.(bits := map[1 := one, 2 := WHITE], inc := [], bar := [], overflow := false)
    requires (one == WHITE || one == BLACK)
    ensures GraphOk(TwoWeaklyHeld(), m.bits) && MarkingDone(TwoWeaklyHeld(), m)
  {
    var g := TwoWeaklyHeld();
    assert NULL !in m.bits;
    assert Closed(g, m.bits, 1) && Closed(g, m.bits, 2);
    hide Closed;
    assert Tricolor(g, m);
  }

  lemma TwoReadings(m: Marks)
    requires m == Marks(map[1 := WHITE, 2 := WHITE], [], [], false, {}, multiset{})
    ensures 2 in Resurrect(m, 1, true).bits
    ensures Resurrect(Resurrect(m, 1, true), 2, false) ==
      Marks(map[1 := QUEUED, 2 := WHITE], [GCObject(1)], [], true, {1, 2}, multiset{})
  {
    ResurrectIs(m, 1, true);
    var a := Resurrect(m, 1, true);
    assert a.bits == map[1 := QUEUED, 2 := WHITE];
    ResurrectIs(a, 2, false);
    hide Resurrect;
    assert a.bits[2 := WHITE] == a.bits;
  }

  /**
   Two weakly held objects that nothing else points to are read before the sweep, and
   the second push is refused.  The recovery finds neither a root nor a marked object
   that leads to it, so that it is still white when marking is complete.
   */
  lemma ReadingCanBeLost()
    ensures var m := Marks(map[1 := WHITE, 2 := WHITE], [], [], false, {}, multiset{});
      var m1 := Resurrect(Resurrect(m, 1, true), 2, false);
      var m2 := SetMark(PopGCObject(m1.(overflow := false)), 1);
      && GraphOk(TwoWeaklyHeld(), m.bits) && MarkingDone(TwoWeaklyHeld(), m)
      && m1.inc == [GCObject(1)] && m1.overflow
      && MarkingDone(TwoWeaklyHeld(), m2) && m2.bits[2].White()
  {
    hide Resurrect, MarkingDone, GraphOk, TwoWeaklyHeld;
    var m := Marks(map[1 := WHITE, 2 := WHITE], [], [], false, {}, multiset{});
    TwoWeaklyHeldDone(m, WHITE);
    TwoReadings(m);
    var m1 := Resurrect(Resurrect(m, 1, true), 2, false);
    var m2 := SetMark(PopGCObject(m1.(overflow := false)), 1);
    assert m2.bits == map[1 := BLACK, 2 := WHITE];
    TwoWeaklyHeldDone(m2, BLACK);
  }
}
