/**
 MMgc's open-addressing hash table (pointer keys), which the collector uses for
 its weak references.  The table is a class over a real array; each operation is
 proved against the finite map that the array stands for.
 */
module GCHashtable {
  import opened Probing
  import opened HashtableSlots

  const DEFAULT_SIZE := 16

  /** What the environment answers when a removal asks for a smaller table. */
  datatype Memory = Available | Exhausted | Aborting

  /**
   The probe loop of `find`.  It is also the loop of `put`, which remembers the
   first tombstone it meets besides.
   */
  method Find(hash: Pointer -> nat, key: Pointer, table: array<Entry>) returns (i: nat)
    requires IsPow2(table.Length) && HasNull(table[..])
    ensures Stops(table[..], hash, key, i)
  {
    ghost var t := table[..];
    var n: nat := 0;
    i := hash(key) % table.Length;
    while table[i].key != NULL && table[i].key != key
      invariant i < table.Length && i == ProbeSlot(t, hash, key, n)
      invariant NotYet(t, hash, key, n)
      invariant n < table.Length
      decreases table.Length - n
    {
      SlotStep(hash(key), n, table.Length);
      n := n + 1;
      i := (i + n) % table.Length;
      ProbeStops(t, hash, key, n);
    }
  }

  const NO_DELINDEX: int := -1

  /** The probe loop of `put`: like `Find`, and it notes the first tombstone on the way. */
  method FindForPut(hash: Pointer -> nat, key: Pointer, table: array<Entry>) returns (i: nat, delIndex: int)
    requires IsPow2(table.Length) && HasNull(table[..])
    ensures Stops(table[..], hash, key, i)
    ensures delIndex != NO_DELINDEX ==>
      0 <= delIndex < table.Length && table[delIndex].key == DELETED && OnChain(table[..], hash, key, delIndex)
    ensures if delIndex != NO_DELINDEX then delIndex >= 0 && FirstTombstone(table[..], hash, key, delIndex)
            else forall d: nat :: !FirstTombstone(table[..], hash, key, d)
  {
    ghost var t := table[..];
    delIndex := NO_DELINDEX;
    var n: nat := 0;
    i := hash(key) % table.Length;
    while table[i].key != NULL && table[i].key != key
      invariant i < table.Length && i == ProbeSlot(t, hash, key, n)
      invariant NotYet(t, hash, key, n)
      invariant n < table.Length
      invariant delIndex != NO_DELINDEX ==>
        0 <= delIndex < table.Length && t[delIndex].key == DELETED && OnChain(t, hash, key, delIndex)
      invariant if delIndex != NO_DELINDEX then FirstTombstone(t, hash, key, delIndex) else NoTombstone(t, hash, key, n)
      decreases table.Length - n
    {
      NotYetNext(t, hash, key, n);
      if table[i].key == DELETED && delIndex == NO_DELINDEX {
        assert ChainUnbroken(t, hash, key, n);
        delIndex := i;
      }
      SlotStep(hash(key), n, table.Length);
      n := n + 1;
      i := (i + n) % table.Length;
      ProbeStops(t, hash, key, n);
    }
    if delIndex == NO_DELINDEX { NoneMet(t, hash, key, n); }
  }

  /** Rehash every live entry of `table` into the blank `newTable`; tombstones are left behind. */
  method Rehash(hash: Pointer -> nat, table: array<Entry>, newTable: array<Entry>) returns (moved: nat)
    requires WellFormed(table[..], hash) && newTable != table
    requires IsPow2(newTable.Length) && forall i :: 0 <= i < newTable.Length ==> newTable[i] == EMPTY_ENTRY
    requires |Contents(table[..])| < newTable.Length
    modifies newTable
    ensures WellFormed(newTable[..], hash) && Contents(newTable[..]) == Contents(table[..])
    ensures moved == NonNull(newTable[..]) == |Contents(table[..])| && Deleted(newTable[..]) == 0
  {
    moved := 0;
    BlankWellFormed(newTable[..], hash);
    ghost var t := table[..];
    var i := 0;
    while i < table.Length
      invariant 0 <= i <= |t| && table[..] == t
      invariant WellFormed(newTable[..], hash) && Contents(newTable[..]) == Contents(t[..i])
      invariant moved == NonNull(newTable[..]) && Deleted(newTable[..]) == 0
    {
      PrefixStep(t, i);
      var oldKey, oldValue := table[i].key, table[i].value;
      if oldKey != NULL && oldKey != DELETED {
        ghost var before := newTable[..];
        CountBounds(before);
        ContentsSize(before);
        var j := Find(hash, oldKey, newTable);
        StopsAtKey(before, hash, oldKey, j);
        StopsOnChain(before, hash, oldKey, j);
        WriteNewKey(before, hash, oldKey, oldValue, j);
        newTable[j] := Entry(oldKey, oldValue);
        assert newTable[..] == before[j := Entry(oldKey, oldValue)];
        moved := moved + 1;
      }
      i := i + 1;
    }
    assert t[..i] == t;
    ContentsSize(newTable[..]);
  }

  class Hashtable {
    const hash: Pointer -> nat
    const EMPTY: array<Entry>
    var table: array<Entry>
    var tableSize: nat
    var numValues: nat
    var numDeleted: nat

    ghost predicate Valid()
      reads this, table, EMPTY
    {
      && EMPTY.Length == 4
      && (forall i :: 0 <= i < 4 ==> EMPTY[i] == EMPTY_ENTRY)
      && tableSize == table.Length && tableSize >= 4
      && WellFormed(table[..], hash)
      && if table == EMPTY then numValues == 4 && numDeleted == 0
         else && numValues == NonNull(table[..]) && numDeleted == Deleted(table[..])
              && numValues * 4 <= tableSize * 3
    }

    /** The map the table stands for. */
    ghost function Map(): map<Pointer, Value>
      reads this, table
    {
      Contents(table[..])
    }

    /** The array this table may write: never the shared EMPTY one. */
    ghost function Own(): set<object>
      reads this
    {
      if table == EMPTY then {} else {table}
    }

    /** Every valid table has a NULL slot for a probe to stop at. */
    lemma NullSlot()
      requires Valid()
      ensures HasNull(table[..]) && IsPow2(table.Length)
    {
      if table == EMPTY {
        assert table[..][0].key == NULL;
      } else {
        CountBounds(table[..]);
      }
    }

    constructor (hash: Pointer -> nat, empty: array<Entry>, capacity: nat)
      requires empty.Length == 4 && forall i :: 0 <= i < 4 ==> empty[i] == EMPTY_ENTRY
      requires capacity == 0 || (capacity >= 4 && IsPow2(capacity))
      ensures Valid() && Map() == map[]
      ensures this.hash == hash && EMPTY == empty
      ensures if capacity == 0 then table == empty else fresh(table) && tableSize == capacity
    {
      this.hash := hash;
      this.EMPTY := empty;
      if capacity > 0 {
        // grow(false) on a NULL table allocates exactly `capacity` zeroed slots
        var t := new Entry[capacity](_ => EMPTY_ENTRY);
        this.table := t;
        this.tableSize := capacity;
        this.numValues := 0;
      } else {
        // appear as a full table so that the first put grows
        this.table := empty;
        this.tableSize := 4;
        this.numValues := 4;
      }
      this.numDeleted := 0;
      new;
      assert IsPow2(4) by { assert IsPow2(2) by { assert IsPow2(1); } }
      BlankWellFormed(table[..], hash);
    }

    method Clear()
      requires Valid()
      modifies this
      ensures Valid() && Map() == map[] && table == EMPTY
    {
      table := EMPTY;
      tableSize := 4;
      numValues := 4;
      numDeleted := 0;
      assert IsPow2(4) by { assert IsPow2(2) by { assert IsPow2(1); } }
      BlankWellFormed(table[..], hash);
    }

    method Get(key: Pointer) returns (value: Value)
      requires Valid() && key != DELETED
      ensures value == if key in Map() then Map()[key] else 0
    {
      NullSlot();
      var i := Find(hash, key, table);
      value := table[i].value;
      if Live(key) {
        StopsAtKey(table[..], hash, key, i);
      } else if key in Map() {
        var j := SlotOf(table[..], key);
      }
    }

    /**
     `count()` is the number of entries of the map, except that a table in the
     EMPTY state, which pretends to be full, reports 4.
     */
    method Count() returns (n: nat)
      requires Valid()
      ensures n == |Map()| <==> table != EMPTY
      ensures table == EMPTY ==> n == 4 && Map() == map[]
    {
      ContentsSize(table[..]);
      CountBounds(table[..]);
      if table == EMPTY { BlankWellFormed(table[..], hash); }
      n := numValues - numDeleted;
    }

    /** Reallocate, and rehash into a table that is larger, smaller or the same. */
    method Grow(isRemoval: bool, memory: Memory)
      requires Valid()
      modifies this
      ensures Valid() && Map() == old(Map())
      ensures table == old(table) || fresh(table)
      ensures isRemoval && memory != Available ==> unchanged(this)
      ensures !(isRemoval && memory != Available) ==>
        fresh(table) && numDeleted == 0 && numValues == |Map()| && numValues * 4 < tableSize * 3
      // over half full it doubles; less than a fifth full, and larger than 16 slots, it halves
      ensures !(isRemoval && memory != Available) ==>
        var entries := if old(table) == EMPTY then 4 else |Map()|;
        tableSize ==
          if 2 * entries > old(tableSize) then 2 * old(tableSize)
          else if 5 * entries < old(tableSize) && old(tableSize) > 16 then old(tableSize) / 2
          else old(tableSize)
    {
      if isRemoval && memory == Aborting { return; }
      var occupiedSlots := Occupied();
      var newTableSize := ResizedTo(occupiedSlots, tableSize);
      if isRemoval && memory == Exhausted { return; }
      ResizedFits(occupiedSlots, tableSize);
      Reallocate(newTableSize);
    }

    /** Move the entries into a new table of the given size. */
    method Reallocate(newTableSize: nat)
      requires Valid() && IsPow2(newTableSize) && newTableSize >= 4 && |Map()| * 4 < newTableSize * 3
      modifies this
      ensures Valid() && Map() == old(Map())
      ensures fresh(table) && numDeleted == 0 && numValues == |Map()| && numValues * 4 < tableSize * 3
      ensures tableSize == newTableSize
    {
      var newTable := new Entry[newTableSize](_ => EMPTY_ENTRY);
      var moved := Rehash(hash, table, newTable);
      numValues := moved;
      numDeleted := 0;
      table := newTable;
      tableSize := newTableSize;
    }

    /** Slots in use according to the counters; at least the number of entries. */
    method Occupied() returns (n: nat)
      requires Valid()
      ensures n == numValues - numDeleted && |Map()| <= n && n == if table == EMPTY then 4 else |Map()|
      ensures 4 * n <= 3 * tableSize || (n == tableSize == 4)
    {
      CountBounds(table[..]);
      ContentsSize(table[..]);
      if table == EMPTY { BlankWellFormed(table[..], hash); }
      n := numValues - numDeleted;
    }

    /** Write a new key into a NULL or DELETED slot of its chain. */
    method Fill(i: nat, key: Pointer, value: Value)
      requires Valid() && Live(key) && key !in Map() && table != EMPTY
      requires i < table.Length && !Live(table[i].key) && OnChain(table[..], hash, key, i)
      requires table[i].key == NULL ==> numValues * 4 < tableSize * 3
      modifies this, table
      ensures Valid() && Map() == old(Map())[key := value]
      ensures table == old(table) && table[..] == old(table[..])[i := Entry(key, value)]
    {
      ghost var before := table[..];
      WriteNewKey(before, hash, key, value, i);
      CountBounds(before[i := Entry(key, value)]);
      if table[i].key == NULL {
        LoadAfterInsert(numValues, tableSize);
        numValues := numValues + 1;
      } else {
        // numValues already counts the tombstone
        numDeleted := numDeleted - 1;
      }
      table[i] := Entry(key, value);
      assert table[..] == before[i := Entry(key, value)];
    }

    /** Give the key in slot `i` a new value. */
    method Update(i: nat, key: Pointer, value: Value)
      requires Valid() && Live(key) && i < table.Length && table[i].key == key
      modifies table
      ensures Valid() && Map() == old(Map())[key := value]
      ensures table != EMPTY
    {
      ghost var before := table[..];
      WritePresentKey(before, hash, key, value, i);
      table[i] := Entry(key, value);
      assert table[..] == before[i := Entry(key, value)];
    }

    method Put(key: Pointer, value: Value)
      requires Valid() && Live(key)
      modifies this, Own()
      ensures Valid() && Map() == old(Map())[key := value]
      ensures table != EMPTY
      ensures table == old(table) || fresh(table)
      // a new key goes where the first tombstone on its way was, if there is one
      ensures forall d: nat :: key !in old(Map()) && FirstTombstone(old(table[..]), hash, key, d) ==>
        table == old(table) && table[..] == old(table[..])[d := Entry(key, value)]
      // the table stays unless there is a new key and three quarters of it are taken
      ensures key in old(Map()) || old(numValues * 4 < tableSize * 3) ==>
        table == old(table) && tableSize == old(tableSize)
    {
      NullSlot();
      var i, delIndex := FindForPut(hash, key, table);
      StopsAtKey(table[..], hash, key, i);
      if delIndex != NO_DELINDEX { OnlyFirst(table[..], hash, key, delIndex); }
      if table[i].key == NULL {
        if delIndex != NO_DELINDEX {
          i := delIndex;
        } else {
          if numValues * 4 >= tableSize * 3 {
            Grow(false, Available);
            NullSlot();
            i := Find(hash, key, table);
            StopsAtKey(table[..], hash, key, i);
          }
          StopsOnChain(table[..], hash, key, i);
        }
        Fill(i, key, value);
      } else {
        Update(i, key, value);
      }
    }

    /** Turn the live slot `i` into a tombstone. */
    method Bury(i: nat)
      requires Valid() && i < table.Length && Live(table[i].key)
      modifies this, table
      ensures Valid() && Map() == old(Map()) - {old(table[i].key)}
      ensures table == old(table) != EMPTY && tableSize == old(tableSize)
      ensures table[..] == old(table[..])[i := Entry(DELETED, 0)]
    {
      ghost var before := table[..];
      WriteTombstone(before, hash, i);
      table[i] := Entry(DELETED, 0);
      assert table[..] == before[i := Entry(DELETED, 0)];
      numDeleted := numDeleted + 1;
    }

    /** The slot that holds `key` becomes a tombstone; with `allowRehash` the table may then shrink. */
    method Remove(key: Pointer, allowRehash: bool, memory: Memory) returns (ret: Value)
      requires Valid() && Live(key)
      modifies this, Own()
      ensures Valid() && Map() == old(Map()) - {key}
      ensures ret == if key in old(Map()) then old(Map())[key] else 0
      ensures table == old(table) || fresh(table)
      ensures !allowRehash ==>
        && table == old(table) && tableSize == old(tableSize)
        && forall i :: 0 <= i < tableSize ==>
             table[i] == if old(table[i].key) == key then Entry(DELETED, 0) else old(table[i])
      // it is rehashed exactly if it is left less than a fifth full, and there is memory
      ensures if allowRehash && memory == Available && key in old(Map()) && 5 * |Map()| < old(tableSize)
              then fresh(table) && numDeleted == 0 && numValues == |Map()|
              else table == old(table) && tableSize == old(tableSize)
    {
      NullSlot();
      ret := 0;
      var i := Find(hash, key, table);
      StopsAtKey(table[..], hash, key, i);
      if table[i].key == key {
        ret := table[i].value;
        Bury(i);
        CountBounds(table[..]);
        ContentsSize(table[..]);
        if allowRehash && (numValues - numDeleted) * 5 < tableSize {
          Grow(true, memory);
        }
      } else {
        KeyAbsent(table[..], key);
      }
    }

    /**
     A table less than a fifth full is rehashed, if there is memory; it loses its tombstones, and
     half of its slots.
     */
    method Prune(memory: Memory)
      requires Valid()
      modifies this
      ensures Valid() && Map() == old(Map())
      ensures if old(table) != EMPTY && 5 * |Map()| < old(tableSize) && memory == Available
              then
                && fresh(table) && numDeleted == 0 && numValues == |Map()|
                && tableSize == if old(tableSize) > 16 then old(tableSize) / 2 else old(tableSize)
              else unchanged(this)
    {
      CountBounds(table[..]);
      ContentsSize(table[..]);
      if (numValues - numDeleted) * 5 < tableSize {
        Grow(true, memory);
      }
    }
  }

  // ----- runs -----

  datatype Operation = PutOp(key: Pointer, value: Value) | RemoveOp(key: Pointer, allowRehash: bool, memory: Memory)
                     | PruneOp(memory: Memory) | ClearOp

  function Apply(m: map<Pointer, Value>, op: Operation): map<Pointer, Value> {
    match op
    case PutOp(key, value) => m[key := value]
    case RemoveOp(key, _, _) => m - {key}
    case PruneOp(_) => m
    case ClearOp => map[]
  }

  function ApplyAll(m: map<Pointer, Value>, ops: seq<Operation>): map<Pointer, Value> {
    if ops == [] then m else Apply(ApplyAll(m, ops[..|ops| - 1]), ops[|ops| - 1])
  }

  ghost predicate KeysLive(ops: seq<Operation>) {
    forall op :: op in ops && (op.PutOp? || op.RemoveOp?) ==> Live(op.key)
  }

  /** Over any run of operations a table is the finite map that the operations make; EMPTY is never written. */
  method Run(ht: Hashtable, ops: seq<Operation>)
    requires ht.Valid() && KeysLive(ops)
    modifies ht, ht.Own()
    ensures ht.Valid() && ht.Map() == ApplyAll(old(ht.Map()), ops)
  {
    var k := 0;
    while k < |ops|
      invariant k <= |ops| && ht.Valid() && ht.Map() == ApplyAll(old(ht.Map()), ops[..k])
      invariant ht.table == old(ht.table) || fresh(ht.table) || ht.table == ht.EMPTY
    {
      assert ops[..k + 1][..k] == ops[..k] && ops[k] in ops;
      match ops[k] {
        case PutOp(key, value) => ht.Put(key, value);
        case RemoveOp(key, allowRehash, memory) => var value := ht.Remove(key, allowRehash, memory);
        case PruneOp(memory) => ht.Prune(memory);
        case ClearOp => ht.Clear();
      }
      k := k + 1;
    }
    assert ops[..k] == ops;
  }

  /** Over half full: double.  Under a fifth full and above the default size: halve. */
  function ResizedTo(occupied: nat, size: nat): nat {
    if 2 * occupied > size then 2 * size
    else if 5 * occupied < size && size > DEFAULT_SIZE then size / 2
    else size
  }

  /** Whichever way the size goes, the entries leave more than a quarter of the slots NULL. */
  lemma ResizedFits(occupied: nat, size: nat)
    requires IsPow2(size) && size >= 4
    requires 4 * occupied <= 3 * size || occupied == size == 4
    ensures IsPow2(ResizedTo(occupied, size)) && ResizedTo(occupied, size) >= 4
    ensures occupied * 4 < ResizedTo(occupied, size) * 3
  {
    assert size % 2 == 0 && IsPow2(size / 2);
  }

  // ----- facts about single writes -----

  lemma NotLiveNotIn(t: seq<Entry>, i: nat)
    requires i < |t| && !Live(t[i].key)
    ensures Contents(t) - {t[i].key} == Contents(t)
  {
    if t[i].key in Contents(t) {
      var j := SlotOf(t, t[i].key);
    }
  }

  lemma KeyAbsent(t: seq<Entry>, key: Pointer)
    requires Unique(t) && Live(key) && key !in Contents(t)
    ensures forall j :: 0 <= j < |t| ==> t[j].key != key
    ensures Contents(t) - {key} == Contents(t)
  {
    forall j | 0 <= j < |t| ensures t[j].key != key {
      if t[j].key == key { SlotInContents(t, j); }
    }
  }

  lemma NewKeyWritable(t: seq<Entry>, hash: Pointer -> nat, key: Pointer, value: Value, i: nat)
    requires WellFormed(t, hash) && Live(key) && key !in Contents(t)
    requires i < |t| && OnChain(t, hash, key, i)
    ensures Writable(t, hash, i, Entry(key, value))
  {
    KeyAbsent(t, key);
  }

  lemma PresentKeyWritable(t: seq<Entry>, hash: Pointer -> nat, key: Pointer, value: Value, i: nat)
    requires WellFormed(t, hash) && Live(key) && i < |t| && t[i].key == key
    ensures Writable(t, hash, i, Entry(key, value))
    ensures (Contents(t) - {key})[key := value] == Contents(t)[key := value]
  {
  }

  /** Everything that `put` needs to know about writing a key that is not there yet. */
  lemma WriteNewKey(t: seq<Entry>, hash: Pointer -> nat, key: Pointer, value: Value, i: nat)
    requires WellFormed(t, hash) && Live(key) && key !in Contents(t)
    requires i < |t| && !Live(t[i].key) && OnChain(t, hash, key, i)
    ensures WellFormed(t[i := Entry(key, value)], hash)
    ensures Contents(t[i := Entry(key, value)]) == Contents(t)[key := value]
    ensures NonNull(t[i := Entry(key, value)]) == NonNull(t) + One(t[i].key == NULL)
    ensures Deleted(t[i := Entry(key, value)]) == Deleted(t) - One(t[i].key == DELETED)
  {
    var e := Entry(key, value);
    NewKeyWritable(t, hash, key, value, i);
    NotLiveNotIn(t, i);
    WriteKeeps(t, hash, i, e);
    WriteContents(t, i, e);
    CountUpdate(t, i, e);
  }

  /** ... and about giving a new value to a key that is. */
  lemma WritePresentKey(t: seq<Entry>, hash: Pointer -> nat, key: Pointer, value: Value, i: nat)
    requires WellFormed(t, hash) && Live(key) && i < |t| && t[i].key == key
    ensures WellFormed(t[i := Entry(key, value)], hash)
    ensures Contents(t[i := Entry(key, value)]) == Contents(t)[key := value]
    ensures NonNull(t[i := Entry(key, value)]) == NonNull(t)
    ensures Deleted(t[i := Entry(key, value)]) == Deleted(t)
  {
    var e := Entry(key, value);
    PresentKeyWritable(t, hash, key, value, i);
    WriteKeeps(t, hash, i, e);
    WriteContents(t, i, e);
    CountUpdate(t, i, e);
  }

  /** ... and about leaving a tombstone. */
  lemma WriteTombstone(t: seq<Entry>, hash: Pointer -> nat, i: nat)
    requires WellFormed(t, hash) && i < |t| && Live(t[i].key)
    ensures WellFormed(t[i := Entry(DELETED, 0)], hash)
    ensures Contents(t[i := Entry(DELETED, 0)]) == Contents(t) - {t[i].key}
    ensures NonNull(t[i := Entry(DELETED, 0)]) == NonNull(t)
    ensures Deleted(t[i := Entry(DELETED, 0)]) == Deleted(t) + 1
  {
    var e := Entry(DELETED, 0);
    assert Writable(t, hash, i, e);
    WriteKeeps(t, hash, i, e);
    WriteContents(t, i, e);
    CountUpdate(t, i, e);
  }

  lemma PrefixUnique(t: seq<Entry>, n: nat)
    requires Unique(t) && n <= |t|
    ensures Unique(t[..n])
  {
    var p := t[..n];
    forall i, j | 0 <= i < |p| && 0 <= j < |p| && Live(p[i].key) && p[i].key == p[j].key ensures i == j {
      assert t[i].key == t[j].key;
    }
  }

  lemma {:induction false} PrefixSmaller(t: seq<Entry>, n: nat)
    requires Unique(t) && n <= |t|
    ensures |Contents(t[..n])| <= |Contents(t)|
    decreases |t| - n
  {
    if n == |t| {
      assert t[..n] == t;
    } else {
      PrefixSmaller(t, n + 1);
      PrefixUnique(t, n + 1);
      assert t[..n + 1][..n] == t[..n];
      LastIsNew(t[..n + 1]);
    }
  }

  /** What one more slot adds to the contents of a prefix. */
  lemma PrefixStep(t: seq<Entry>, n: nat)
    requires Unique(t) && n < |t|
    ensures Contents(t[..n + 1]) == if Live(t[n].key) then Contents(t[..n])[t[n].key := t[n].value]
                                    else Contents(t[..n])
    ensures t[n].key !in Contents(t[..n])
    ensures |Contents(t[..n])| + One(Live(t[n].key)) <= |Contents(t)|
  {
    assert t[..n + 1][..n] == t[..n];
    PrefixUnique(t, n + 1);
    LastIsNew(t[..n + 1]);
    PrefixSmaller(t, n + 1);
  }

  /** With a multiple of 4 slots, one more value stays within the load bound. */
  lemma LoadAfterInsert(used: nat, size: nat)
    requires IsPow2(size) && size >= 4 && used * 4 < size * 3
    ensures (used + 1) * 4 <= size * 3
  {
    var half := size / 2;
    assert IsPow2(half) && size == 2 * half;
    var quarter := half / 2;
    assert half == 2 * quarter;
    assert used < 3 * quarter;
  }
}
