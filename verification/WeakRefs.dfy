/**
 The collector's table of weak references: an object has at most one weak reference
 object, which lives as long as the object does.
 */
module WeakRefs {
  import opened HashtableSlots
  import opened GCHashtable

  /** Walks over the live slots of a table, which may lose keys on the way. */
  class Iterator {
    const ht: Hashtable
    var index: int

    constructor (ht: Hashtable)
      ensures this.ht == ht && index == -1
    {
      this.ht := ht;
      index := -1;
    }

    /** The key of the next live slot, or NULL; all slots skipped are NULL or deleted. */
    method NextKey() returns (key: Pointer)
      requires ht.Valid() && -1 <= index
      modifies this
      ensures old(index) < index
      ensures forall i :: old(index) < i < index && i < ht.tableSize ==> !Live(ht.table[i].key)
      ensures index < ht.tableSize ==> Live(key) && key == ht.table[index].key
      ensures index >= ht.tableSize ==> key == NULL
    {
      index := index + 1;
      while index < ht.tableSize && ht.table[index].key <= DELETED
        invariant old(index) < index
        invariant forall i :: old(index) < i < index && i < ht.tableSize ==> !Live(ht.table[i].key)
      {
        index := index + 1;
      }
      key := if index < ht.tableSize then ht.table[index].key else NULL;
    }
  }

  /**
   Every entry of the table leads to a weak reference object that points back to its
   key, different keys have different ones, and the flag is set exactly on the keys.
   */
  ghost predicate Paired(m: map<Pointer, Value>, target: map<Value, Pointer>, flagged: set<Pointer>) {
    && flagged == m.Keys
    && forall k :: k in m ==> m[k] > 0 && m[k] in target && target[m[k]] == k
  }

  lemma UnpairOne(m: map<Pointer, Value>, target: map<Value, Pointer>, flagged: set<Pointer>, k: Pointer)
    requires Paired(m, target, flagged) && k in m
    ensures Paired(m - {k}, target[m[k] := NULL], flagged - {k})
  {
  }

  lemma PairOne(m: map<Pointer, Value>, target: map<Value, Pointer>, flagged: set<Pointer>, k: Pointer, w: Value)
    requires Paired(m, target, flagged) && k !in m && w > 0 && w !in target
    ensures Paired(m[k := w], target[w := k], flagged + {k})
  {
  }

  // ----- what the sweep of the table keeps -----

  /** Entries only leave, none of a marked object does, and only the references of those that left become null. */
  ghost predicate Kept(m0: map<Pointer, Value>, m: map<Pointer, Value>, marked0: set<int>,
                       target0: map<Value, Pointer>, target: map<Value, Pointer>) {
    && (forall k :: k in m ==> k in m0 && m[k] == m0[k])
    && (forall k :: k in m0 && k in marked0 ==> k in m)
    && target.Keys == target0.Keys
    && forall w :: w in target && target[w] != target0[w] ==> target[w] == NULL && target0[w] in m0 && target0[w] !in m
  }

  /** Whatever has become marked is the weak reference object of a marked key. */
  ghost predicate MarkedFor(marked0: set<int>, marked: set<int>, m: map<Pointer, Value>) {
    marked0 <= marked && forall w :: w in marked && w !in marked0 ==> exists k :: k in m && k in marked && m[k] == w
  }

  lemma ClearKept(m0: map<Pointer, Value>, m: map<Pointer, Value>, marked0: set<int>, marked: set<int>,
                  target0: map<Value, Pointer>, target: map<Value, Pointer>, flagged: set<Pointer>, o: Pointer)
    requires Kept(m0, m, marked0, target0, target) && MarkedFor(marked0, marked, m) && Paired(m, target, flagged)
    requires o in m && o !in marked && o != NULL
    ensures Kept(m0, m - {o}, marked0, target0, target[m[o] := NULL]) && MarkedFor(marked0, marked, m - {o})
  {
    var m', target' := m - {o}, target[m[o] := NULL];
    assert m[o] in target && target[m[o]] == o;
    forall w | w in target' && target'[w] != target0[w]
      ensures target'[w] == NULL && target0[w] in m0 && target0[w] !in m'
    {
      if w == m[o] && target[w] == target0[w] { assert target0[w] == o; }
    }
    forall w | w in marked && w !in marked0 ensures exists k :: k in m' && k in marked && m'[k] == w {
      var k :| k in m && k in marked && m[k] == w;
      assert k in m' && m'[k] == w;
    }
  }

  lemma MarkKept(marked0: set<int>, marked: set<int>, m: map<Pointer, Value>, k: Pointer)
    requires MarkedFor(marked0, marked, m) && k in m && k in marked
    ensures MarkedFor(marked0, marked + {m[k]}, m)
  {
    var marked' := marked + {m[k]};
    forall w | w in marked' && w !in marked0 ensures exists j :: j in m && j in marked' && m[j] == w {
      if w in marked {
        var j :| j in m && j in marked && m[j] == w;
        assert j in marked';
      } else {
        assert k in marked' && m[k] == w;
      }
    }
  }


  /** A table whose live slots hold marked keys with marked references. */
  ghost predicate AllMarked(t: seq<Entry>, done: nat, marked: set<int>) {
    done <= |t| && forall i :: 0 <= i < done && Live(t[i].key) ==> t[i].key in marked && t[i].value in marked
  }

  lemma NothingVisited(m: map<Pointer, Value>, marked: set<int>, target: map<Value, Pointer>, t: seq<Entry>)
    ensures Kept(m, m, marked, target, target) && MarkedFor(marked, marked, m) && AllMarked(t, 0, marked)
  {
  }

  lemma SkipDead(t: seq<Entry>, done: nat, index: nat, marked: set<int>)
    requires AllMarked(t, done, marked) && done <= index
    requires forall i :: done <= i < index && i < |t| ==> !Live(t[i].key)
    ensures AllMarked(t, if index < |t| then index else |t|, marked)
  {
  }

  lemma MarkedContents(t: seq<Entry>, marked: set<int>)
    requires AllMarked(t, |t|, marked)
    ensures forall k :: k in Contents(t) ==> k in marked && Contents(t)[k] in marked
  {
    forall k | k in Contents(t) ensures k in marked && Contents(t)[k] in marked {
      var i := SlotOf(t, k);
    }
  }

  class WeakRefTable {
    const weakRefs: Hashtable
    const emptyWeakRef: Value

    /** m_obj of every weak reference object, the kHasWeakRef bits, and the mark bits. */
    var target: map<Value, Pointer>
    var hasWeakRef: set<Pointer>
    var marked: set<int>

    ghost predicate Valid()
      reads this, weakRefs, weakRefs.table, weakRefs.EMPTY
    {
      weakRefs.Valid() && Paired(weakRefs.Map(), target, hasWeakRef)
    }

    constructor (weakRefs: Hashtable, emptyWeakRef: Value)
      requires weakRefs.Valid() && weakRefs.Map() == map[]
      ensures Valid() && this.weakRefs == weakRefs && this.emptyWeakRef == emptyWeakRef
      ensures target == map[] && hasWeakRef == {} && marked == {}
    {
      this.weakRefs, this.emptyWeakRef := weakRefs, emptyWeakRef;
      target, hasWeakRef, marked := map[], {}, {};
    }

    /** ClearWeakRef: the object's entry and flag go, and its weak reference object becomes null. */
    method ClearWeakRef(item: Pointer, allowRehash: bool, memory: Memory)
      requires Valid() && item in weakRefs.Map() && Live(item)
      modifies this`target, this`hasWeakRef, weakRefs, weakRefs.Own()
      ensures Valid() && weakRefs.Map() == old(weakRefs.Map()) - {item}
      ensures target == old(target)[old(weakRefs.Map())[item] := NULL]
      ensures weakRefs.table == old(weakRefs.table) || fresh(weakRefs.table)
      ensures !allowRehash ==> weakRefs.table == old(weakRefs.table) && weakRefs.tableSize == old(weakRefs.tableSize)
      ensures !allowRehash ==> forall i :: 0 <= i < weakRefs.tableSize ==>
        weakRefs.table[i] == if old(weakRefs.table[i].key) == item then Entry(DELETED, 0) else old(weakRefs.table[i])
    {
      UnpairOne(weakRefs.Map(), target, hasWeakRef, item);
      var r := weakRefs.Remove(item, allowRehash, memory);
      if r != 0 {
        target := target[r := NULL];
        hasWeakRef := hasWeakRef - {item};
      }
    }

    /**
     GetWeakRef: the one weak reference object of an object, made when it is first
     asked for, unless the object is about to die.
     */
    method GetWeakRef(userptr: Pointer, collecting: bool, newRef: Value) returns (r: Value)
      requires Valid() && Live(userptr) && newRef > 0 && newRef !in target
      modifies this`target, this`hasWeakRef, weakRefs, weakRefs.Own()
      ensures Valid()
      ensures userptr in old(weakRefs.Map()) ==>
        r == old(weakRefs.Map())[userptr] && weakRefs.Map() == old(weakRefs.Map()) && target == old(target)
      ensures userptr !in old(weakRefs.Map()) && collecting && userptr !in marked ==>
        r == emptyWeakRef && weakRefs.Map() == old(weakRefs.Map()) && target == old(target)
      ensures userptr !in old(weakRefs.Map()) && !(collecting && userptr !in marked) ==>
        r == newRef && weakRefs.Map() == old(weakRefs.Map())[userptr := newRef] && target == old(target)[newRef := userptr]
      ensures weakRefs.table == old(weakRefs.table) || fresh(weakRefs.table)
    {
      var ref := weakRefs.Get(userptr);
      if ref == 0 {
        if collecting && userptr !in marked {
          return emptyWeakRef;
        }
        PairOne(weakRefs.Map(), target, hasWeakRef, userptr, newRef);
        weakRefs.Put(userptr, newRef);
        target := target[newRef := userptr];
        hasWeakRef := hasWeakRef + {userptr};
        r := newRef;
      } else {
        r := ref;
      }
    }

    /** One entry of MarkOrClearWeakRefs: the one in slot `i`. */
    method MarkOrClear(i: nat)
      requires Valid() && i < weakRefs.tableSize && Live(weakRefs.table[i].key)
      modifies this`target, this`hasWeakRef, this`marked, weakRefs, weakRefs.Own()
      ensures Valid() && weakRefs.table == old(weakRefs.table) && weakRefs.tableSize == old(weakRefs.tableSize)
      ensures forall j :: 0 <= j < weakRefs.tableSize && j != i ==> weakRefs.table[j] == old(weakRefs.table[j])
      ensures var key, w := old(weakRefs.table[i].key), old(weakRefs.table[i].value);
        && key in old(weakRefs.Map()) && old(weakRefs.Map())[key] == w
        && if key in old(marked) then
             && weakRefs.table[i] == old(weakRefs.table[i]) && marked == old(marked) + {w}
             && target == old(target) && weakRefs.Map() == old(weakRefs.Map())
           else
             && weakRefs.table[i] == Entry(DELETED, 0) && marked == old(marked)
             && target == old(target)[w := NULL] && weakRefs.Map() == old(weakRefs.Map()) - {key}
    {
      SlotInContents(weakRefs.table[..], i);
      var w := weakRefs.table[i].value;
      var o := target[w];
      if o != NULL && o !in marked {
        assert weakRefs.table[..][i].key == o;
        ClearWeakRef(o, false, Available);
      } else if w !in marked {
        marked := marked + {w};
      }
    }

    /** The same, in the course of going through the table. */
    method VisitSlot(i: nat, ghost m0: map<Pointer, Value>, ghost marked0: set<int>, ghost target0: map<Value, Pointer>)
      requires Valid() && i < weakRefs.tableSize && Live(weakRefs.table[i].key)
      requires AllMarked(weakRefs.table[..], i, marked)
      requires Kept(m0, weakRefs.Map(), marked0, target0, target) && MarkedFor(marked0, marked, weakRefs.Map())
      modifies this`target, this`hasWeakRef, this`marked, weakRefs, weakRefs.Own()
      ensures Valid() && weakRefs.table == old(weakRefs.table)
      ensures AllMarked(weakRefs.table[..], i + 1, marked)
      ensures Kept(m0, weakRefs.Map(), marked0, target0, target) && MarkedFor(marked0, marked, weakRefs.Map())
    {
      ghost var m, was, marks, goals, flags := weakRefs.Map(), weakRefs.table[..], marked, target, hasWeakRef;
      MarkOrClear(i);
      hide Kept, MarkedFor, Paired, WellFormed;
      if was[i].key in marks {
        MarkKept(marked0, marks, m, was[i].key);
      } else {
        ClearKept(m0, m, marked0, marks, target0, goals, flags, was[i].key);
      }
    }

    /** The loop of MarkOrClearWeakRefs: every entry in its turn, as the iterator finds them. */
    method VisitAll()
      requires Valid()
      modifies this`target, this`hasWeakRef, this`marked, weakRefs, weakRefs.Own()
      ensures Valid() && weakRefs.table == old(weakRefs.table)
      ensures AllMarked(weakRefs.table[..], weakRefs.table.Length, marked)
      ensures Kept(old(weakRefs.Map()), weakRefs.Map(), old(marked), old(target), target)
      ensures MarkedFor(old(marked), marked, weakRefs.Map())
    {
      ghost var m0, target0, marked0 := weakRefs.Map(), target, marked;
      ghost var table, own := weakRefs.table, weakRefs.Own();
      hide Kept, MarkedFor, Paired, AllMarked, WellFormed, Contents, NonNull, Deleted;
      NothingVisited(m0, marked0, target0, table[..]);
      var it := new Iterator(weakRefs);
      var key := it.NextKey();
      SkipDead(table[..], 0, it.index, marked);
      while key != NULL
        invariant Valid() && it.ht == weakRefs && fresh(it) && weakRefs.table == table && weakRefs.Own() == own
        invariant 0 <= it.index && (key != NULL <==> it.index < table.Length)
        invariant key != NULL ==> Live(table[it.index].key)
        invariant AllMarked(table[..], if it.index < table.Length then it.index else table.Length, marked)
        invariant Kept(m0, weakRefs.Map(), marked0, target0, target) && MarkedFor(marked0, marked, weakRefs.Map())
        decreases table.Length - it.index
      {
        VisitSlot(it.index, m0, marked0, target0);
        ghost var done: nat := it.index + 1;
        key := it.NextKey();
        SkipDead(table[..], done, it.index, marked);
      }
    }

    /**
     MarkOrClearWeakRefs, at the end of marking: the entries of unmarked objects are
     cleared, the weak reference objects of marked ones are kept alive.
     */
    method MarkOrClearWeakRefs(memory: Memory)
      requires Valid()
      modifies this`target, this`hasWeakRef, this`marked, weakRefs, weakRefs.Own()
      ensures Valid()
      // every key that remains, and its weak reference object, is marked
      ensures forall k :: k in weakRefs.Map() ==> k in marked && weakRefs.Map()[k] in marked
      // no entry of a marked object is lost, and no other weak reference object is made null
      ensures Kept(old(weakRefs.Map()), weakRefs.Map(), old(marked), old(target), target)
      // nothing but the weak reference objects of the remaining keys is newly marked
      ensures MarkedFor(old(marked), marked, weakRefs.Map())
      // a table that is left less than a fifth full loses its tombstones
      ensures old(weakRefs.table) != weakRefs.EMPTY && 5 * |weakRefs.Map()| < old(weakRefs.tableSize) && memory == Available ==>
        fresh(weakRefs.table) && weakRefs.numDeleted == 0
    {
      hide Kept, MarkedFor, Paired, AllMarked, WellFormed;
      VisitAll();
      MarkedContents(weakRefs.table[..], marked);
      weakRefs.Prune(memory);
    }
  }
}
