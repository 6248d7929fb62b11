/**
 The slots of a GCHashtable as a value, and what it means for them to stand for
 a finite map.  Every lemma here is about one slot write; the methods in
 GCHashtable.dfy apply them.
 */
module HashtableSlots {
  import opened Probing

  type Pointer = nat
  type Value = int

  const NULL: Pointer := 0
  const DELETED: Pointer := 1

  datatype Entry = Entry(key: Pointer, value: Value)

  const EMPTY_ENTRY := Entry(NULL, 0)

  predicate Live(key: Pointer) {
    key > DELETED
  }

  /** The slot the n-th probe for `key` looks at. */
  ghost function ProbeSlot(t: seq<Entry>, hash: Pointer -> nat, key: Pointer, n: nat): (s: nat)
    requires |t| > 0
    ensures s < |t|
  {
    Slot(hash(key), n, |t|)
  }

  /** None of the first `n` probes for `key` meets a NULL slot. */
  ghost predicate ChainUnbroken(t: seq<Entry>, hash: Pointer -> nat, key: Pointer, n: nat) {
    |t| > 0 && forall m: nat | m < n :: t[ProbeSlot(t, hash, key, m)].key != NULL
  }

  /** Slot `i` is the n-th probe for `key` for some n with an unbroken chain before it. */
  ghost predicate OnChain(t: seq<Entry>, hash: Pointer -> nat, key: Pointer, i: nat) {
    |t| > 0 && exists n: nat :: ProbeSlot(t, hash, key, n) == i && ChainUnbroken(t, hash, key, n)
  }

  ghost predicate Unique(t: seq<Entry>) {
    forall i, j :: 0 <= i < |t| && 0 <= j < |t| && Live(t[i].key) && t[i].key == t[j].key ==> i == j
  }

  ghost predicate WellFormed(t: seq<Entry>, hash: Pointer -> nat) {
    && IsPow2(|t|)
    && Unique(t)
    && (forall i :: 0 <= i < |t| && Live(t[i].key) ==> OnChain(t, hash, t[i].key, i))
    && (forall i :: 0 <= i < |t| && !Live(t[i].key) ==> t[i].value == 0)
  }

  /** The finite map that the slots stand for. */
  ghost function Contents(t: seq<Entry>): map<Pointer, Value> {
    if t == [] then map[]
    else
      var rest, last := Contents(t[..|t| - 1]), t[|t| - 1];
      if Live(last.key) then rest[last.key := last.value] else rest
  }

  lemma {:induction false} SlotOf(t: seq<Entry>, key: Pointer) returns (i: nat)
    requires key in Contents(t)
    ensures i < |t| && t[i].key == key && Live(key) && Contents(t)[key] == t[i].value
  {
    var n := |t| - 1;
    if t[n].key == key && Live(key) {
      i := n;
    } else {
      i := SlotOf(t[..n], key);
    }
  }

  lemma {:induction false} SlotInContents(t: seq<Entry>, i: nat)
    requires Unique(t) && i < |t| && Live(t[i].key)
    ensures t[i].key in Contents(t) && Contents(t)[t[i].key] == t[i].value
  {
    var n := |t| - 1;
    if i < n {
      UniquePrefix(t);
      SlotInContents(t[..n], i);
    }
  }

  lemma UniquePrefix(t: seq<Entry>)
    requires Unique(t) && |t| > 0
    ensures Unique(t[..|t| - 1])
  {
    var p := t[..|t| - 1];
    forall i, j | 0 <= i < |p| && 0 <= j < |p| && Live(p[i].key) && p[i].key == p[j].key ensures i == j {
      assert t[i].key == t[j].key;
    }
  }

  ghost predicate HasNull(t: seq<Entry>) {
    exists i :: 0 <= i < |t| && t[i].key == NULL
  }

  /**
   What a probe for `key` must stop at: the first slot on the key's probe
   sequence that is NULL or holds the key itself.
   */
  ghost predicate Stops(t: seq<Entry>, hash: Pointer -> nat, key: Pointer, i: nat) {
    && i < |t|
    && (t[i].key == NULL || t[i].key == key)
    && exists n: nat :: ProbeSlot(t, hash, key, n) == i && NotYet(t, hash, key, n)
  }

  ghost predicate NotYet(t: seq<Entry>, hash: Pointer -> nat, key: Pointer, n: nat) {
    && |t| > 0
    && forall m: nat | m < n ::
         t[ProbeSlot(t, hash, key, m)].key != NULL && t[ProbeSlot(t, hash, key, m)].key != key
  }

  /** Slot `d` is the first tombstone that the probe for `key` passes. */
  ghost predicate FirstTombstone(t: seq<Entry>, hash: Pointer -> nat, key: Pointer, d: nat) {
    && d < |t| && t[d].key == DELETED
    && exists n: nat :: ProbeSlot(t, hash, key, n) == d && NotYet(t, hash, key, n + 1) && NoTombstone(t, hash, key, n)
  }

  ghost predicate NoTombstone(t: seq<Entry>, hash: Pointer -> nat, key: Pointer, n: nat) {
    |t| > 0 && forall m: nat | m < n :: t[ProbeSlot(t, hash, key, m)].key != DELETED
  }

  /** What the first `n` probes have met, at probe `m`. */
  lemma ProbedAt(t: seq<Entry>, hash: Pointer -> nat, key: Pointer, n: nat, m: nat)
    requires |t| > 0
    ensures NotYet(t, hash, key, n) && m < n ==>
      t[ProbeSlot(t, hash, key, m)].key != NULL && t[ProbeSlot(t, hash, key, m)].key != key
    ensures NoTombstone(t, hash, key, n) && m < n ==> t[ProbeSlot(t, hash, key, m)].key != DELETED
  {
  }

  lemma NotYetNext(t: seq<Entry>, hash: Pointer -> nat, key: Pointer, n: nat)
    requires NotYet(t, hash, key, n)
    requires t[ProbeSlot(t, hash, key, n)].key != NULL && t[ProbeSlot(t, hash, key, n)].key != key
    ensures NotYet(t, hash, key, n + 1)
  {
  }

  /** A probe that passes no tombstone until it stops. */
  lemma NoneMet(t: seq<Entry>, hash: Pointer -> nat, key: Pointer, n: nat)
    requires NotYet(t, hash, key, n) && NoTombstone(t, hash, key, n)
    requires t[ProbeSlot(t, hash, key, n)].key == NULL || t[ProbeSlot(t, hash, key, n)].key == key
    ensures forall d: nat :: !FirstTombstone(t, hash, key, d)
  {
    forall d: nat, n': nat
      ensures !(ProbeSlot(t, hash, key, n') == d && NotYet(t, hash, key, n' + 1) && d < |t| && t[d].key == DELETED)
    {
      ProbedAt(t, hash, key, n, n');
      ProbedAt(t, hash, key, n' + 1, n);
    }
    hide NotYet, NoTombstone, ProbeSlot;
  }

  /** There is only one such slot. */
  lemma OneFirstTombstone(t: seq<Entry>, hash: Pointer -> nat, key: Pointer, d: nat, d': nat)
    requires FirstTombstone(t, hash, key, d) && FirstTombstone(t, hash, key, d')
    ensures d == d'
  {
    var n: nat :| ProbeSlot(t, hash, key, n) == d && NotYet(t, hash, key, n + 1) && NoTombstone(t, hash, key, n);
    var n': nat :| ProbeSlot(t, hash, key, n') == d' && NotYet(t, hash, key, n' + 1) && NoTombstone(t, hash, key, n');
    ProbedAt(t, hash, key, n', n);
    ProbedAt(t, hash, key, n, n');
  }

  lemma OnlyFirst(t: seq<Entry>, hash: Pointer -> nat, key: Pointer, d: nat)
    requires FirstTombstone(t, hash, key, d)
    ensures forall d': nat :: FirstTombstone(t, hash, key, d') ==> d' == d
  {
    forall d': nat | FirstTombstone(t, hash, key, d') ensures d' == d { OneFirstTombstone(t, hash, key, d, d'); }
  }

  /** A probe has to stop within the first |t| steps. */
  lemma ProbeStops(t: seq<Entry>, hash: Pointer -> nat, key: Pointer, n: nat)
    requires IsPow2(|t|) && HasNull(t) && NotYet(t, hash, key, n)
    ensures n < |t|
  {
    var z :| 0 <= z < |t| && t[z].key == NULL;
    var m := ProbesReachEverySlot(hash(key), z, |t|);
    assert ProbeSlot(t, hash, key, m) == z;
  }

  /** The probe finds the key exactly when the key is in the map. */
  lemma StopsAtKey(t: seq<Entry>, hash: Pointer -> nat, key: Pointer, i: nat)
    requires WellFormed(t, hash) && Stops(t, hash, key, i) && Live(key)
    ensures t[i].key == key <==> key in Contents(t)
    ensures t[i].key == key ==> Contents(t)[key] == t[i].value
  {
    if t[i].key == key { SlotInContents(t, i); }
    if key in Contents(t) {
      var j := SlotOf(t, key);
      assert OnChain(t, hash, t[j].key, j);
      var n: nat :| ProbeSlot(t, hash, key, n) == i && NotYet(t, hash, key, n);
      var n': nat :| ProbeSlot(t, hash, key, n') == j && ChainUnbroken(t, hash, key, n');
      // n < n' would put the key, not NULL, at slot i; n' < n is impossible.
      assert t[i].key == key;
    }
  }

  /** Turning non-live slots live never breaks a chain, nor does replacing one non-NULL key by another. */
  lemma ChainKept(t: seq<Entry>, t': seq<Entry>, hash: Pointer -> nat, key: Pointer, i: nat)
    requires |t'| == |t| && OnChain(t, hash, key, i)
    requires forall j :: 0 <= j < |t| && t[j].key != NULL ==> t'[j].key != NULL
    ensures OnChain(t', hash, key, i)
  {
    var n: nat :| ProbeSlot(t, hash, key, n) == i && ChainUnbroken(t, hash, key, n);
    forall m: nat | m < n ensures t'[ProbeSlot(t', hash, key, m)].key != NULL {
      assert ProbeSlot(t', hash, key, m) == ProbeSlot(t, hash, key, m);
    }
    assert ProbeSlot(t', hash, key, n) == i && ChainUnbroken(t', hash, key, n);
  }

  /** What it takes to write `e` into slot `i` without disturbing the other keys. */
  ghost predicate Writable(t: seq<Entry>, hash: Pointer -> nat, i: nat, e: Entry) {
    && i < |t|
    && (t[i].key != NULL ==> e.key != NULL)
    && (Live(e.key) ==> OnChain(t, hash, e.key, i) && forall j :: 0 <= j < |t| && j != i ==> t[j].key != e.key)
    && (!Live(e.key) ==> e.value == 0)
  }

  /** Every slot write of put, remove and grow keeps the slots well formed. */
  lemma WriteKeeps(t: seq<Entry>, hash: Pointer -> nat, i: nat, e: Entry)
    requires WellFormed(t, hash) && Writable(t, hash, i, e)
    ensures WellFormed(t[i := e], hash)
  {
    var t' := t[i := e];
    forall j | 0 <= j < |t'| && Live(t'[j].key) ensures OnChain(t', hash, t'[j].key, j) {
      ChainKept(t, t', hash, t'[j].key, j);
    }
  }

  /** ... and changes the map at the old and the new key only. */
  lemma WriteContents(t: seq<Entry>, i: nat, e: Entry)
    requires i < |t| && Unique(t) && Unique(t[i := e])
    ensures Contents(t[i := e]) == if Live(e.key) then (Contents(t) - {t[i].key})[e.key := e.value]
                                   else Contents(t) - {t[i].key}
  {
    var t' := t[i := e];
    var c, c' := Contents(t), Contents(t');
    var d := if Live(e.key) then (c - {t[i].key})[e.key := e.value] else c - {t[i].key};
    assert t'[i] == e;
    forall k | k in c' ensures k in d && c'[k] == d[k] {
      var j := SlotOf(t', k);
      SlotInContents(t', j);
      if j != i {
        SlotInContents(t, j);
        assert k != t[i].key;
        assert Live(e.key) ==> k != e.key;
      }
    }
    forall k | k in d ensures k in c' {
      if Live(e.key) && k == e.key {
        SlotInContents(t', i);
      } else {
        var j := SlotOf(t, k);
        assert t'[j] == t[j];
        SlotInContents(t', j);
      }
    }
    assert c'.Keys == d.Keys;
  }

  /** A slot found by probing lies on the key's chain. */
  lemma StopsOnChain(t: seq<Entry>, hash: Pointer -> nat, key: Pointer, i: nat)
    requires Stops(t, hash, key, i)
    ensures OnChain(t, hash, key, i)
  {
    var n: nat :| ProbeSlot(t, hash, key, n) == i && NotYet(t, hash, key, n);
    assert ChainUnbroken(t, hash, key, n);
  }

  // ----- counting slots -----

  ghost function NonNull(t: seq<Entry>): nat {
    if t == [] then 0 else NonNull(t[..|t| - 1]) + if t[|t| - 1].key != NULL then 1 else 0
  }

  ghost function Deleted(t: seq<Entry>): nat {
    if t == [] then 0 else Deleted(t[..|t| - 1]) + if t[|t| - 1].key == DELETED then 1 else 0
  }

  ghost function One(b: bool): nat { if b then 1 else 0 }

  /** How the two counters change when one slot is written. */
  lemma {:induction false} CountUpdate(t: seq<Entry>, i: nat, e: Entry)
    requires i < |t|
    ensures NonNull(t[i := e]) == NonNull(t) - One(t[i].key != NULL) + One(e.key != NULL)
    ensures Deleted(t[i := e]) == Deleted(t) - One(t[i].key == DELETED) + One(e.key == DELETED)
    decreases |t|
  {
    var n := |t| - 1;
    if i == n {
      assert t[i := e][..n] == t[..n];
    } else {
      assert t[i := e][..n] == t[..n][i := e];
      CountUpdate(t[..n], i, e);
    }
  }

  lemma {:induction false} CountBounds(t: seq<Entry>)
    ensures Deleted(t) <= NonNull(t) <= |t|
    ensures NonNull(t) < |t| ==> HasNull(t)
  {
    if t != [] {
      var n := |t| - 1;
      CountBounds(t[..n]);
      if NonNull(t) < |t| {
        if t[n].key == NULL {
        } else {
          var z :| 0 <= z < n && t[..n][z].key == NULL;
          assert t[z].key == NULL;
        }
      }
    }
  }

  /** The number of entries of the map is the number of live slots. */
  lemma {:induction false} ContentsSize(t: seq<Entry>)
    requires Unique(t)
    ensures |Contents(t)| == NonNull(t) - Deleted(t)
  {
    if t != [] {
      var n := |t| - 1;
      UniquePrefix(t);
      ContentsSize(t[..n]);
      LastIsNew(t);
    }
  }

  lemma LastIsNew(t: seq<Entry>)
    requires Unique(t) && |t| > 0
    ensures t[|t| - 1].key !in Contents(t[..|t| - 1])
  {
    var n := |t| - 1;
    if t[n].key in Contents(t[..n]) {
      var j := SlotOf(t[..n], t[n].key);
    }
  }

  lemma {:induction false} BlankCounts(t: seq<Entry>)
    requires forall i :: 0 <= i < |t| ==> t[i].key == NULL
    ensures NonNull(t) == 0 && Deleted(t) == 0
  {
    if t != [] { BlankCounts(t[..|t| - 1]); }
  }

  lemma {:induction false} BlankContents(t: seq<Entry>)
    requires forall i :: 0 <= i < |t| ==> t[i].key == NULL
    ensures Contents(t) == map[]
  {
    if t != [] { BlankContents(t[..|t| - 1]); }
  }

  lemma BlankWellFormed(t: seq<Entry>, hash: Pointer -> nat)
    requires IsPow2(|t|) && forall i :: 0 <= i < |t| ==> t[i] == EMPTY_ENTRY
    ensures WellFormed(t, hash) && Contents(t) == map[] && NonNull(t) == 0 && Deleted(t) == 0 && HasNull(t)
  {
    BlankCounts(t);
    BlankContents(t);
    assert t[0].key == NULL;
  }

  /**
   The load rule of `put` (grow once numValues * 4 >= tableSize * 3) keeps a
   NULL slot free after every insertion exactly for tables of at least 4 slots.
   */
  lemma LoadRuleKeepsNull(size: nat)
    requires IsPow2(size)
    ensures (forall used: nat :: used * 4 < size * 3 ==> used + 1 < size) <==> size >= 4
  {
    if size == 1 { assert 0 * 4 < size * 3; }
    if size == 2 { assert 1 * 4 < size * 3; }
    assert size != 3 by { assert 3 % 2 == 1; }
  }
}
