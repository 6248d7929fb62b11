/**
 The state of MMgc's incremental marker as values: mark bits, the two work
 stacks and the overflow flag on one side, the object graph on the other, with
 the invariants that connect them.
 */
module MarkState {

  type Obj = nat
  const NULL: Obj := 0

  type Positive = n: nat | n > 0 witness 1

  /** The kMark and kQueued bits of an object; both set means "on a free list". */
  datatype Bits = Bits(mark: bool, queued: bool) {
    predicate White() { !mark && !queued }
    predicate Queued() { !mark && queued }
    predicate Black() { mark && !queued }
    predicate Free() { mark && queued }
  }

  const WHITE := Bits(false, false)
  const QUEUED := Bits(false, true)
  const BLACK := Bits(true, false)
  const FREE := Bits(true, true)

  /** Items of the mark stack: an object, or the program's native stack. */
  datatype Item = GCObject(obj: Obj) | StackMemory

  datatype Root = Root(exact: bool, isStack: bool, ptrs: seq<Obj>)

  /**
   `resurrected` holds the objects that were pushed because they were read through a
   weak reference before the sweep, and `again` how often they are on the mark stack
   more than their colour says: a second reading pushes them a second time.
   */
  datatype Marks = Marks(
    bits: map<Obj, Bits>, inc: seq<Item>, bar: seq<Obj>, overflow: bool,
    resurrected: set<Obj>, again: multiset<Obj>)

  /**
   The object graph.  `fields` holds the pointers of every item; `order` is the
   order in which the overflow recovery walks the pointer-containing items.
   `dangling` holds the fields, by object and index, whose target has been deleted
   since they were written, and `weak` the objects that have a weak reference.
   */
  datatype Graph = Graph(
    fields: map<Obj, seq<Obj>>, pointerful: set<Obj>, order: seq<Obj>,
    gcRoots: seq<Obj>, roots: seq<Root>, nativeStack: seq<Obj>,
    dangling: set<(Obj, nat)>, weak: set<Obj>)

  // ----- well-formedness -----

  ghost predicate PointersIn(ptrs: seq<Obj>, s: set<Obj>) {
    forall i :: 0 <= i < |ptrs| && ptrs[i] != NULL ==> ptrs[i] in s
  }

  /** The pointers that the marker and the program start from. */
  ghost predicate RootPointersIn(g: Graph, s: set<Obj>) {
    && PointersIn(g.gcRoots, s)
    && PointersIn(g.nativeStack, s)
    && forall i :: 0 <= i < |g.roots| ==> PointersIn(g.roots[i].ptrs, s)
  }

  ghost predicate GraphOk(g: Graph, bits: map<Obj, Bits>) {
    && g.fields.Keys == bits.Keys
    && NULL !in bits
    && g.pointerful <= bits.Keys
    && (forall o :: o in g.pointerful ==> o in g.order)
    && (forall o :: o in g.order ==> o in g.pointerful)
    && (forall o :: o in bits && (o !in g.pointerful || bits[o].Free()) ==> PointersIn(g.fields[o], {}))
    && (forall o :: o in bits ==> PointersIn(g.fields[o], bits.Keys))
    && RootPointersIn(g, bits.Keys)
    && FreeDangle(g, bits)
    && WeakOk(g, bits)
  }

  /** No weak reference leads to a free slot. */
  ghost predicate WeakOk(g: Graph, bits: map<Obj, Bits>) {
    forall o :: o in g.weak ==> o in bits && !bits[o].Free()
  }

  /** Whatever points to a free slot, from another object, dangles. */
  ghost predicate FreeDangle(g: Graph, bits: map<Obj, Bits>) {
    forall o, i: nat :: o in g.fields && i < |g.fields[o]| && g.fields[o][i] in bits && bits[g.fields[o][i]].Free() ==>
      (o, i) in g.dangling
  }

  /** How often an object occurs on the two work stacks together. */
  ghost function Occurrences(m: Marks, o: Obj): nat {
    multiset(m.inc)[GCObject(o)] + multiset(m.bar)[o]
  }

  /**
   Every queued object is on exactly one stack exactly once, and no other object is on
   a stack, but for what has been resurrected more than once.
   */
  ghost predicate CountsOk(m: Marks) {
    forall o :: o in m.bits ==> Occurrences(m, o) == (if m.bits[o].Queued() then 1 else 0) + m.again[o]
  }

  ghost predicate AgainOk(m: Marks) {
    forall o :: o in m.again ==> o in m.bits && o in m.resurrected && !m.bits[o].Free()
  }

  ghost predicate StacksOk(g: Graph, m: Marks) {
    && CountsOk(m) && AgainOk(m)
    && (forall o :: o in m.bits && m.bits[o].Queued() ==> o in g.pointerful || o in m.resurrected)
    && (forall i :: 0 <= i < |m.inc| && m.inc[i].GCObject? ==> m.inc[i].obj in m.bits)
    && (forall i :: 0 <= i < |m.bar| ==> m.bar[i] in m.bits)
    && (forall i :: 0 <= i < |m.inc| - 1 ==> m.inc[i].GCObject?)
  }

  /** No pointer of `o` leads to a white object, except those that dangle. */
  ghost predicate Closed(g: Graph, bits: map<Obj, Bits>, o: Obj)
    requires o in g.fields
  {
    forall i: nat :: i < |g.fields[o]| && (o, i) !in g.dangling && g.fields[o][i] in bits ==> !bits[g.fields[o][i]].White()
  }

  ghost predicate NoneWhite(ptrs: seq<Obj>, bits: map<Obj, Bits>) {
    forall i :: 0 <= i < |ptrs| && ptrs[i] in bits ==> !bits[ptrs[i]].White()
  }

  /**
   The tri-colour invariant: outside `exempt`, no black object points to a
   white one, unless the overflow flag is up.
   */
  ghost predicate TricolorExcept(g: Graph, m: Marks, exempt: set<Obj>) {
    !m.overflow ==>
      forall o :: o in m.bits && o in g.fields && m.bits[o].Black() && o !in exempt ==> Closed(g, m.bits, o)
  }

  ghost predicate Tricolor(g: Graph, m: Marks) {
    TricolorExcept(g, m, {})
  }

  /** Only objects of `allowed` are gray or black, and `allowed` is closed under following pointers. */
  ghost predicate Confined(g: Graph, bits: map<Obj, Bits>, allowed: set<Obj>) {
    && (forall o :: o in bits && (bits[o].Queued() || bits[o].Black()) ==> o in allowed)
    && (forall o :: o in allowed && o in g.fields ==> PointersIn(g.fields[o], allowed))
    && RootPointersIn(g, allowed)
  }

  // ----- what marking may do to the bits -----

  /** The marker only darkens: white to gray or black, gray to black. */
  predicate DarkerBits(b: Bits, b': Bits) {
    b == b' || (b.White() && !b'.Free()) || (b.Queued() && b'.Black())
  }

  ghost predicate Darker(bits: map<Obj, Bits>, bits': map<Obj, Bits>) {
    && bits'.Keys == bits.Keys
    && forall o :: o in bits ==> DarkerBits(bits[o], bits'[o])
  }

  lemma DarkerTransitive(a: map<Obj, Bits>, b: map<Obj, Bits>, c: map<Obj, Bits>)
    requires Darker(a, b) && Darker(b, c)
    ensures Darker(a, c)
  {
  }

  /** The objects still without a mark (white or queued). */
  ghost function Unmarked(bits: map<Obj, Bits>): set<Obj> {
    set o | o in bits && !bits[o].mark
  }

  lemma DarkerUnmarked(a: map<Obj, Bits>, b: map<Obj, Bits>)
    requires Darker(a, b)
    ensures Unmarked(b) <= Unmarked(a)
  {
  }

  lemma NoneWhiteKept(ptrs: seq<Obj>, a: map<Obj, Bits>, b: map<Obj, Bits>)
    requires Darker(a, b) && NoneWhite(ptrs, a)
    ensures NoneWhite(ptrs, b)
  {
  }

  lemma ClosedKept(g: Graph, o: Obj, a: map<Obj, Bits>, b: map<Obj, Bits>)
    requires o in g.fields && Darker(a, b) && Closed(g, a, o)
    ensures Closed(g, b, o)
  {
  }

  /** If no pointer at all leads to a white object, no dangling one has to be excused. */
  lemma NoneWhiteCloses(g: Graph, o: Obj, bits: map<Obj, Bits>)
    requires o in g.fields && NoneWhite(g.fields[o], bits)
    ensures Closed(g, bits, o)
  {
  }

  lemma PointerFree(g: Graph, o: Obj, bits: map<Obj, Bits>)
    requires o in g.fields && PointersIn(g.fields[o], {}) && NULL !in bits
    ensures Closed(g, bits, o)
  {
  }

  // ----- reachability -----

  /** The program's starting points. */
  ghost predicate IsRoot(g: Graph, o: Obj) {
    || o in g.gcRoots
    || o in g.nativeStack
    || exists i :: 0 <= i < |g.roots| && o in g.roots[i].ptrs
  }

  /** Object `a` has a pointer to `b`; if `loose`, it may dangle. */
  ghost predicate Edge(g: Graph, a: Obj, b: Obj, loose: bool) {
    a in g.fields && exists i: nat :: i < |g.fields[a]| && g.fields[a][i] == b && (loose || (a, i) !in g.dangling)
  }

  /** `path` follows pointers from a root to `o`; if `loose`, also dangling ones, and from weakly held objects. */
  ghost predicate PathTo(g: Graph, path: seq<Obj>, o: Obj, loose: bool) {
    && |path| > 0
    && path[|path| - 1] == o && o != NULL
    && if |path| == 1 then IsRoot(g, o) || (loose && o in g.weak)
       else PathTo(g, path[..|path| - 1], path[|path| - 2], loose) && Edge(g, path[|path| - 2], o, loose)
  }

  ghost predicate Reachable(g: Graph, o: Obj) {
    exists path :: PathTo(g, path, o, false)
  }

  /** What the program can get hold of: also through dangling pointers and weak references. */
  ghost predicate Obtainable(g: Graph, o: Obj) {
    exists path :: PathTo(g, path, o, true)
  }

  ghost function ObtainableSet(g: Graph): set<Obj> {
    set o | o in g.fields.Keys && Obtainable(g, o)
  }

  /** A strict path is a loose one; where nothing dangles and nothing is held weakly, the converse holds. */
  lemma {:induction false} PathEither(g: Graph, path: seq<Obj>, o: Obj, loose: bool, loose': bool)
    requires PathTo(g, path, o, loose) && (loose && !loose' ==> g.dangling == {} && g.weak == {})
    ensures PathTo(g, path, o, loose')
    decreases |path|
  {
    if |path| > 1 {
      var x := path[|path| - 2];
      PathEither(g, path[..|path| - 1], x, loose, loose');
      assert Edge(g, x, o, loose') by {
        var i: nat :| i < |g.fields[x]| && g.fields[x][i] == o && (loose || (x, i) !in g.dangling);
      }
    }
  }

  /** What the program can get at is what is reachable, and more only if something dangles or is held weakly. */
  lemma ReachableOrMore(g: Graph)
    ensures forall o :: Reachable(g, o) ==> Obtainable(g, o)
    ensures g.dangling == {} && g.weak == {} ==> forall o :: Obtainable(g, o) ==> Reachable(g, o)
  {
    forall o | Reachable(g, o) ensures Obtainable(g, o) {
      var path :| PathTo(g, path, o, false);
      PathEither(g, path, o, false, true);
    }
    if g.dangling == {} && g.weak == {} {
      forall o | Obtainable(g, o) ensures Reachable(g, o) {
        var path :| PathTo(g, path, o, true);
        PathEither(g, path, o, true, false);
      }
    }
  }

  lemma RootObtainable(g: Graph, o: Obj)
    requires (IsRoot(g, o) || o in g.weak) && o != NULL
    ensures Obtainable(g, o)
  {
    assert PathTo(g, [o], o, true);
  }

  lemma StepObtainable(g: Graph, a: Obj, b: Obj)
    requires Obtainable(g, a) && Edge(g, a, b, true) && b != NULL
    ensures Obtainable(g, b)
  {
    var path :| PathTo(g, path, a, true);
    var longer := path + [b];
    assert longer[..|longer| - 1] == path;
    assert PathTo(g, longer, b, true);
  }

  /** `s` holds the starting points, and wherever pointers lead from it. */
  ghost predicate ClosedSet(g: Graph, s: set<Obj>, loose: bool) {
    && RootPointersIn(g, s) && (loose ==> g.weak <= s)
    && forall x, i: nat :: x in s && x in g.fields && i < |g.fields[x]| && g.fields[x][i] != NULL && (loose || (x, i) !in g.dangling) ==>
         g.fields[x][i] in s
  }

  /** A set that holds the roots and is closed under pointers holds everything reachable. */
  lemma {:induction false} ClosedHoldsPath(g: Graph, path: seq<Obj>, o: Obj, s: set<Obj>, loose: bool)
    requires PathTo(g, path, o, loose) && ClosedSet(g, s, loose)
    ensures o in s
    decreases |path|
  {
    if |path| == 1 {
      if o in g.gcRoots {
        var i :| 0 <= i < |g.gcRoots| && g.gcRoots[i] == o;
      } else if o in g.nativeStack {
        var i :| 0 <= i < |g.nativeStack| && g.nativeStack[i] == o;
      } else if !(loose && o in g.weak) {
        var i :| 0 <= i < |g.roots| && o in g.roots[i].ptrs;
        var j :| 0 <= j < |g.roots[i].ptrs| && g.roots[i].ptrs[j] == o;
        assert PointersIn(g.roots[i].ptrs, s);
      }
    } else {
      var x := path[|path| - 2];
      ClosedHoldsPath(g, path[..|path| - 1], x, s, loose);
      var i: nat :| i < |g.fields[x]| && g.fields[x][i] == o && (loose || (x, i) !in g.dangling);
    }
  }

  lemma ClosedHoldsReachable(g: Graph, s: set<Obj>)
    requires ClosedSet(g, s, false)
    ensures forall o :: Reachable(g, o) ==> o in s
  {
    forall o | Reachable(g, o) ensures o in s {
      var path :| PathTo(g, path, o, false);
      ClosedHoldsPath(g, path, o, s, false);
    }
  }

  lemma ClosedHoldsObtainable(g: Graph, s: set<Obj>)
    requires ClosedSet(g, s, true)
    ensures forall o :: Obtainable(g, o) ==> o in s
  {
    forall o | Obtainable(g, o) ensures o in s {
      var path :| PathTo(g, path, o, true);
      ClosedHoldsPath(g, path, o, s, true);
    }
  }

  /** The obtainable objects are themselves such a set. */
  lemma ObtainableSetConfines(g: Graph, bits: map<Obj, Bits>)
    requires GraphOk(g, bits)
    requires forall o :: o in bits ==> bits[o].White() || bits[o].Free()
    ensures Confined(g, bits, ObtainableSet(g)) && g.weak <= ObtainableSet(g)
  {
    var s := ObtainableSet(g);
    forall i | 0 <= i < |g.gcRoots| && g.gcRoots[i] != NULL ensures g.gcRoots[i] in s {
      RootObtainable(g, g.gcRoots[i]);
    }
    forall i | 0 <= i < |g.nativeStack| && g.nativeStack[i] != NULL ensures g.nativeStack[i] in s {
      RootObtainable(g, g.nativeStack[i]);
    }
    forall i | 0 <= i < |g.roots| ensures PointersIn(g.roots[i].ptrs, s) {
      var ptrs := g.roots[i].ptrs;
      assert PointersIn(ptrs, bits.Keys);
      forall j | 0 <= j < |ptrs| && ptrs[j] != NULL ensures ptrs[j] in s {
        RootObtainable(g, ptrs[j]);
      }
    }
    forall o | o in g.weak ensures o in s { RootObtainable(g, o); }
    forall o | o in s ensures PointersIn(g.fields[o], s) {
      var ptrs := g.fields[o];
      assert PointersIn(ptrs, bits.Keys);
      forall j | 0 <= j < |ptrs| && ptrs[j] != NULL ensures ptrs[j] in s {
        assert Edge(g, o, ptrs[j], true);
        StepObtainable(g, o, ptrs[j]);
      }
    }
  }

  // ----- the safety argument -----

  /** Marking is complete: nothing pending, nothing lost. */
  ghost predicate MarkingDone(g: Graph, m: Marks) {
    && m.inc == [] && m.bar == [] && !m.overflow
    && Tricolor(g, m)
    && NoneWhite(g.gcRoots, m.bits) && NoneWhite(g.nativeStack, m.bits)
    && forall i :: 0 <= i < |g.roots| ==> NoneWhite(g.roots[i].ptrs, m.bits)
  }

  ghost function MarkedSet(bits: map<Obj, Bits>): set<Obj> {
    set o | o in bits && bits[o].mark
  }

  /** If nothing is queued or lost, and the starting points are marked, so is everything reachable. */
  lemma MarkedHoldReachable(g: Graph, m: Marks)
    requires GraphOk(g, m.bits) && Tricolor(g, m) && !m.overflow && RootPointersIn(g, MarkedSet(m.bits))
    requires forall o :: o in m.bits ==> !m.bits[o].Queued()
    ensures forall o :: Reachable(g, o) ==> o in m.bits && m.bits[o].mark
  {
    var s := MarkedSet(m.bits);
    forall x, i: nat | x in s && x in g.fields && i < |g.fields[x]| && g.fields[x][i] != NULL && (x, i) !in g.dangling
      ensures g.fields[x][i] in s
    {
      assert PointersIn(g.fields[x], m.bits.Keys);
      assert m.bits[x].Free() ==> PointersIn(g.fields[x], {});
      if !m.bits[x].Free() { assert Closed(g, m.bits, x); }
    }
    ClosedHoldsReachable(g, s);
  }

  lemma DoneRootsMarked(g: Graph, m: Marks)
    requires GraphOk(g, m.bits) && MarkingDone(g, m) && forall o :: o in m.bits ==> !m.bits[o].Queued()
    ensures RootPointersIn(g, MarkedSet(m.bits))
  {
    var s := MarkedSet(m.bits);
    assert PointersIn(g.gcRoots, s);
    assert PointersIn(g.nativeStack, s);
    forall i | 0 <= i < |g.roots| ensures PointersIn(g.roots[i].ptrs, s) {
      assert PointersIn(g.roots[i].ptrs, m.bits.Keys);
    }
  }

  /** No lost object: once marking is complete, every reachable item is marked or was freed by hand. */
  lemma NoLostObject(g: Graph, m: Marks)
    requires GraphOk(g, m.bits) && StacksOk(g, m) && MarkingDone(g, m)
    ensures forall o :: Reachable(g, o) ==> o in m.bits && m.bits[o].mark
  {
    forall o | o in m.bits ensures !m.bits[o].Queued() {
      assert Occurrences(m, o) == 0;
    }
    hide StacksOk, CountsOk;
    DoneRootsMarked(g, m);
    MarkedHoldReachable(g, m);
  }
}
