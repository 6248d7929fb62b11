/**
 The probe sequence of MMgc's hash table: offsets 0, 1, 3, 6, 10, ... from the
 home slot, taken modulo a table size that is a power of two.  The main result
 is `ProbesReachEverySlot`: the first `size` probes of any key visit every slot
 of the table, so a probe that looks for an empty slot always finds one.
 */
module Probing {
  import opened Arithmetic

  predicate IsPow2(n: nat) {
    n == 1 || (n > 1 && n % 2 == 0 && IsPow2(n / 2))
  }

  /** The offset of the n-th probe; the loop in `find` adds 1, 2, 3, ... in turn. */
  function Triangle(n: nat): nat {
    if n == 0 then 0 else Triangle(n - 1) + n
  }

  /** The slot inspected by the n-th probe for a key with hash code `h`. */
  function Slot(h: nat, n: nat, size: nat): (s: nat)
    requires size > 0
    ensures s < size
  {
    (h + Triangle(n)) % size
  }

  /** One turn of the probe loop: adding n + 1 moves from the n-th slot to the next. */
  lemma SlotStep(h: nat, n: nat, size: nat)
    requires size > 0
    ensures Slot(h, n + 1, size) == (Slot(h, n, size) + (n + 1)) % size
  {
    ModAdd(h + Triangle(n), n + 1, size);
  }

  lemma {:induction false} TriangleClosed(n: nat)
    ensures 2 * Triangle(n) == n * (n + 1)
  {
    if n > 0 {
      TriangleClosed(n - 1);
      assert n * (n + 1) == (n - 1) * n + 2 * n;
    }
  }

  lemma OddTimesOdd(x: nat, y: nat)
    requires x % 2 == 1 && y % 2 == 1
    ensures (x * y) % 2 == 1
  {
    var u, v := x / 2, y / 2;
    assert x * y == (2 * u + 1) * (2 * v + 1) == 2 * (2 * u * v + u + v) + 1;
  }

  /** An odd factor contributes nothing to divisibility by a power of two. */
  lemma {:induction false} OddFactor(x: nat, y: nat, k: nat, q: nat) returns (j: nat)
    requires IsPow2(q) && x % 2 == 1 && x * y == k * q
    ensures y == j * q
    decreases q
  {
    if q == 1 {
      j := y;
    } else {
      var q' := q / 2;
      assert k * q == k * (2 * q') == 2 * (k * q');
      if y % 2 == 1 { OddTimesOdd(x, y); }
      var y' := y / 2;
      assert x * y == x * (2 * y') == 2 * (x * y');
      j := OddFactor(x, y', k, q');
      assert y == 2 * (j * q') == j * (2 * q');
    }
  }

  lemma SameModDifference(a: nat, b: nat, m: nat) returns (k: nat)
    requires m > 0 && a <= b && a % m == b % m
    ensures b - a == k * m
  {
    var p: nat, q: nat := a / m, b / m;
    assert a == p * m + a % m && b == q * m + b % m;
    if q < p { MulStrict(q, p, m); }
    k := q - p;
    assert (q - p) * m == q * m - p * m;
  }

  /** If x is odd and 0 < y < 2m then x * y / 2 is not a multiple of m. */
  lemma NoSmallMultiple(x: nat, y: nat, z: nat, k: nat, m: nat)
    requires IsPow2(m) && x % 2 == 1 && 0 < y < 2 * m && x * y == 2 * z
    ensures z != k * m
  {
    if z == k * m {
      DoubleMultiple(k, m);
      var j := OddFactor(x, y, k, 2 * m);
      if j > 0 { MulStrict(0, j, 2 * m); }
    }
  }

  lemma DoubleMultiple(k: nat, m: nat)
    ensures k * (2 * m) == 2 * (k * m)
  {
  }

  lemma TriangleDifference(a: nat, b: nat)
    requires a < b
    ensures Triangle(a) < Triangle(b)
    ensures 2 * (Triangle(b) - Triangle(a)) == (b - a) * (a + b + 1)
  {
    TriangleMonotone(a, b - 1);
    TriangleClosed(a);
    TriangleClosed(b);
    assert (b - a) * (a + b + 1) == b * (b + 1) - a * (a + 1);
  }

  /** Two offsets of the first `size` probes never differ by a multiple of `size`. */
  lemma DifferenceNotMultiple(a: nat, b: nat, k: nat, size: nat)
    requires IsPow2(size) && a < b < size
    ensures Triangle(b) - Triangle(a) != k * size
  {
    TriangleDifference(a, b);
    var d, s, z := b - a, a + b + 1, Triangle(b) - Triangle(a);
    // d + s is odd, so exactly one of the two factors is odd.
    if d % 2 == 1 {
      NoSmallMultiple(d, s, z, k, size);
    } else {
      OddSum(d, a);
      NoSmallMultiple(s, d, z, k, size);
    }
  }

  lemma OddSum(d: nat, a: nat)
    requires d % 2 == 0
    ensures (d + 2 * a + 1) % 2 == 1
  {
  }

  /** Two of the first `size` probes never hit the same slot. */
  lemma ProbesDistinct(h: nat, a: nat, b: nat, size: nat)
    requires IsPow2(size) && a < b < size
    ensures Slot(h, a, size) != Slot(h, b, size)
  {
    if Slot(h, a, size) == Slot(h, b, size) {
      TriangleMonotone(a, b);
      var k := SameModDifference(h + Triangle(a), h + Triangle(b), size);
      DifferenceNotMultiple(a, b, k, size);
    }
  }

  lemma {:induction false} TriangleMonotone(a: nat, b: nat)
    requires a <= b
    ensures Triangle(a) <= Triangle(b)
    decreases b - a
  {
    if a < b { TriangleMonotone(a, b - 1); }
  }

  function Below(n: nat): (s: set<nat>)
    ensures forall i :: i in s <==> 0 <= i < n
  {
    if n == 0 then {} else Below(n - 1) + {n - 1}
  }

  lemma {:induction false} BelowSize(n: nat)
    ensures |Below(n)| == n
  {
    if n > 0 { BelowSize(n - 1); }
  }

  function Probed(h: nat, n: nat, size: nat): set<nat>
    requires size > 0
  {
    set i | 0 <= i < n :: Slot(h, i, size)
  }

  lemma {:induction false} ProbedSize(h: nat, n: nat, size: nat)
    requires IsPow2(size) && n <= size
    ensures |Probed(h, n, size)| == n
  {
    if n > 0 {
      ProbedSize(h, n - 1, size);
      forall i | 0 <= i < n - 1 ensures Slot(h, i, size) != Slot(h, n - 1, size) {
        ProbesDistinct(h, i, n - 1, size);
      }
      assert Probed(h, n, size) == Probed(h, n - 1, size) + {Slot(h, n - 1, size)};
    }
  }

  lemma SubsetOfEqualSize<T>(a: set<T>, b: set<T>)
    requires a <= b && |a| == |b|
    ensures a == b
  {
    assert b == a + (b - a);
  }

  /** The first `size` probes of any key visit every slot of the table. */
  lemma ProbesReachEverySlot(h: nat, slot: nat, size: nat) returns (n: nat)
    requires IsPow2(size) && slot < size
    ensures n < size && Slot(h, n, size) == slot
  {
    ProbedSize(h, size, size);
    BelowSize(size);
    assert Probed(h, size, size) <= Below(size);
    SubsetOfEqualSize(Probed(h, size, size), Below(size));
    assert slot in Probed(h, size, size);
    n :| 0 <= n < size && Slot(h, n, size) == slot;
  }
}
