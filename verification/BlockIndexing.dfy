/**
 From an address in a block to the index of the item, by a multiplication and a
 shift, and to the index of its mark bits, by a shift alone.
 */
module BlockIndexing {
  import opened Arithmetic

  const BLOCK_SIZE: nat := 4096

  /** 1 << s. */
  function Pow2(s: nat): (p: nat)
    ensures p > 0
  {
    if s == 0 then 1 else 2 * Pow2(s - 1)
  }

  // ----- division by multiplication and shift -----

  /** How far the loop has to go for items of size `d`. */
  ghost predicate Suitable(d: nat, muli: nat, shft: nat)
    requires d > 0
  {
    muli == Pow2(shft) / d + 1 < 8192 && Pow2(shft + 1) / d + 1 >= 8192
  }

  method ComputeMultiplyShift(d: nat) returns (muli: nat, shft: nat)
    requires d > 0
    ensures Suitable(d, muli, shft)
  {
    var s, n, m := 0, 0, 0;
    while n < 8192
      invariant s == 0 ==> n == 0
      invariant s > 0 ==> n == Pow2(s) / d + 1 && m == (if s == 1 then 0 else Pow2(s - 1) / d + 1) && m < 8192
      decreases 8192 * d - Pow2(s), s == 0
    {
      m := n;
      n := Pow2(s + 1) / d + 1;
      if s > 0 { QuotientBelow(Pow2(s), d, 8191); }
      s := s + 1;
    }
    QuotientOfTwo(d);
    shft := s - 1;
    muli := m;
  }

  lemma QuotientBelow(p: nat, d: nat, k: nat)
    requires d > 0 && p / d < k
    ensures p < k * d
  {
    var q: nat := p / d;
    assert p == q * d + p % d;
    MulStrict(q, k, d);
  }

  lemma QuotientOfTwo(d: nat)
    requires d > 0
    ensures Pow2(1) / d <= 2
  {
    var q: nat := 2 / d;
    assert 2 == q * d + 2 % d;
    MulLe(1, d, q);
  }

  lemma MulLe(a: nat, b: nat, p: nat)
    requires a <= b
    ensures a * p <= b * p
  {
    assert (b - a) * p >= 0;
    assert (b - a) * p == b * p - a * p;
  }

  /** The shift stays small enough for 32-bit arithmetic: 1 << (shft + 1) does not overflow for 16-bit sizes. */
  lemma NoOverflow(d: nat, muli: nat, shft: nat)
    requires 0 < d < 0x10000 && Suitable(d, muli, shft)
    ensures Pow2(shft + 1) < 0x40000000 && (BLOCK_SIZE - 1) * muli < 0x80000000
  {
    QuotientBelow(Pow2(shft), d, 8191);
    assert 8191 * d < 8192 * 0x10000;
  }

  /** For every offset in a block, the multiplication and shift yield the quotient. */
  lemma MultiplyShiftDivides(d: nat, muli: nat, shft: nat, x: nat)
    requires d > 0 && Suitable(d, muli, shft) && x < BLOCK_SIZE
    ensures x * muli / Pow2(shft) == x / d
  {
    TwiceAtLeast(Pow2(shft), d);
    hide Pow2;
    ByReciprocal(Pow2(shft), d, x);
  }

  /** The rounded-up reciprocal of `d` in units of `p`. */
  lemma ByReciprocal(p: nat, d: nat, x: nat)
    requires d > 0 && p > 0 && 2 * p >= 8191 * d && x < BLOCK_SIZE
    ensures x * (p / d + 1) / p == x / d
  {
    var c: nat, e: nat := p / d, d - p % d;
    assert p == c * d + p % d;
    Distribute(c, 1, d);
    ErrorSmall(d, p, e, x);
    var q: nat, t: nat, m := x / d, x % d, c + 1;
    assert x == q * d + t;
    Between(d, p, e, x, q, t, m);
    var r: nat := x * m - q * p;
    ModUniqueQuotient(x * m, q, r, p);
  }

  lemma Distribute(a: nat, b: nat, d: nat)
    ensures (a + b) * d == a * d + b * d
  {
  }

  /** The loop's last test gives 2p >= 8191 d. */
  lemma TwiceAtLeast(p: nat, d: nat)
    requires d > 0 && 2 * p / d + 1 >= 8192
    ensures 2 * p >= 8191 * d
  {
    var q: nat := 2 * p / d;
    assert 2 * p == q * d + 2 * p % d;
    MulLe(8191, q, d);
  }

  /** So the error made in rounding the reciprocal stays below one. */
  lemma ErrorSmall(d: nat, p: nat, e: nat, x: nat)
    requires 0 < e <= d && x < BLOCK_SIZE && 2 * p >= 8191 * d
    ensures x * e < p
  {
    MulLe(e, d, x);
    MulLe(x, 4095, d);
  }

  lemma Between(d: nat, p: nat, e: nat, x: nat, q: nat, t: nat, m: nat)
    requires d > 0 && x == q * d + t && t < d && m * d == p + e && x * e < p
    ensures q * p <= x * m < q * p + p
  {
    calc {
      x * m * d;
    ==
      x * (m * d);
    ==
      x * (p + e);
    ==
      x * p + x * e;
    }
    calc {
      x * p;
    ==
      (q * d + t) * p;
    ==
      q * d * p + t * p;
    ==
      q * p * d + t * p;
    }
    assert x * m * d == q * p * d + t * p + x * e;
    assert t * p >= 0 && x * e >= 0;
    if x * m < q * p { MulStrict(x * m, q * p, d); }
    assert t * p + p <= d * p by { MulStrict(t, d, p); }
    assert x * m * d < q * p * d + d * p;
    assert q * p * d + d * p == (q * p + p) * d;
    if x * m > q * p + p { MulStrict(q * p + p, x * m, d); }
  }

  lemma ModUniqueQuotient(x: nat, q: nat, r: nat, m: nat)
    requires m > 0 && r < m && x == q * m + r
    ensures x / m == q
  {
    var k: nat := x / m;
    assert x == k * m + x % m;
    if k < q { MulStrict(k, q, m); }
    if q < k { MulStrict(q, k, m); }
  }

  // ----- items -----

  /** FindBeginning, in offsets: the beginning of the item that an offset lies in. */
  function FindBeginning(d: nat, muli: nat, shft: nat, x: nat): int {
    d * (x * muli / Pow2(shft))
  }

  lemma BeginningIsItem(d: nat, muli: nat, shft: nat, x: nat)
    requires d > 0 && Suitable(d, muli, shft) && x < BLOCK_SIZE
    ensures var b := FindBeginning(d, muli, shft, x); b <= x < b + d && b % d == 0
  {
    MultiplyShiftDivides(d, muli, shft, x);
    var q := x / d;
    assert x == q * d + x % d;
    assert d * q == q * d;
    MultipleMod(q, d);
  }

  // ----- mark bits -----

  /** log2, rounded down. */
  method Log2(n: nat) returns (result: nat)
    requires n > 0
    ensures Pow2(result) <= n < Pow2(result + 1)
  {
    result := 0;
    var m := n;
    while m > 1
      invariant m > 0 && m * Pow2(result) <= n < (m + 1) * Pow2(result)
      decreases m
    {
      Halve(m, Pow2(result), n);
      result := result + 1;
      m := m / 2;
    }
  }

  lemma Halve(m: nat, p: nat, n: nat)
    requires m > 1 && m * p <= n < (m + 1) * p
    ensures m / 2 > 0 && m / 2 * (2 * p) <= n < (m / 2 + 1) * (2 * p)
  {
    var h := m / 2;
    assert m == 2 * h || m == 2 * h + 1;
    assert h * (2 * p) == 2 * h * p && (h + 1) * (2 * p) == (2 * h + 2) * p;
    assert 2 * h * p <= m * p by { assert (m - 2 * h) * p >= 0; }
    assert (m + 1) * p <= (2 * h + 2) * p by { assert (2 * h + 1 - m) * p >= 0; }
  }

  /** The page offset of item `i`, when the items fill the end of the block. */
  function ItemOffset(itemSize: nat, itemsPerBlock: nat, i: nat): int {
    BLOCK_SIZE - itemsPerBlock * itemSize + i * itemSize
  }

  /** GetBitsIndex: the page offset shifted by the logarithm of the item size. */
  function BitsIndex(offset: nat, bitsShift: nat): int {
    offset / Pow2(bitsShift)
  }

  lemma ItemInBlock(itemSize: nat, itemsPerBlock: nat, i: nat)
    requires i < itemsPerBlock && itemsPerBlock * itemSize <= BLOCK_SIZE && itemSize > 0
    ensures 0 <= ItemOffset(itemSize, itemsPerBlock, i)
    ensures ItemOffset(itemSize, itemsPerBlock, i) + itemSize <= BLOCK_SIZE
  {
    MulStrict(i, itemsPerBlock, itemSize);
    assert i * itemSize >= 0;
  }

  /** The index is in range of the bitmap, which has a byte for every shifted offset in a page. */
  lemma BitsIndexInRange(offset: nat, bitsShift: nat)
    requires offset < BLOCK_SIZE && bitsShift < 12
    ensures BitsIndex(offset, bitsShift) < BLOCK_SIZE / Pow2(bitsShift)
  {
    var p := Pow2(bitsShift);
    PageDivides(bitsShift);
    var q, n := offset / p, BLOCK_SIZE / p;
    assert offset == q * p + offset % p;
    assert BLOCK_SIZE == n * p;
    if q >= n { MulLe(n, q, p); }
  }

  lemma {:induction false} PageDivides(bitsShift: nat)
    requires bitsShift <= 12
    ensures BLOCK_SIZE == (BLOCK_SIZE / Pow2(bitsShift)) * Pow2(bitsShift)
  {
    PowersMultiply(bitsShift, 12);
    assert Pow2(12) == BLOCK_SIZE by { Twelve(); }
    var p, c := Pow2(bitsShift), Pow2(12 - bitsShift);
    assert BLOCK_SIZE == c * p + 0;
    ModUniqueQuotient(BLOCK_SIZE, c, 0, p);
  }

  lemma Twelve()
    ensures Pow2(12) == 4096
  {
    assert Pow2(4) == 16;
    assert Pow2(8) == 256;
  }

  lemma {:induction false} PowersMultiply(a: nat, b: nat)
    requires a <= b
    ensures Pow2(b - a) * Pow2(a) == Pow2(b)
  {
    if a > 0 {
      PowersMultiply(a - 1, b);
      TwiceOver(Pow2(b - a), Pow2(a - 1));
    }
  }

  lemma TwiceOver(x: nat, y: nat)
    ensures x * (2 * y) == 2 * x * y
  {
  }

  /**
   No two items of a block share a byte of the bitmap, though the shift need not be
   by the item size itself: neighbours are at least a power of two apart.
   */
  lemma BitsIndexInjective(itemSize: nat, itemsPerBlock: nat, bitsShift: nat, i: nat, j: nat)
    requires itemsPerBlock * itemSize <= BLOCK_SIZE && Pow2(bitsShift) <= itemSize && i < j < itemsPerBlock
    ensures 0 <= ItemOffset(itemSize, itemsPerBlock, i) && 0 <= ItemOffset(itemSize, itemsPerBlock, j)
    ensures BitsIndex(ItemOffset(itemSize, itemsPerBlock, i), bitsShift) < BitsIndex(ItemOffset(itemSize, itemsPerBlock, j), bitsShift)
  {
    ItemInBlock(itemSize, itemsPerBlock, i);
    ItemInBlock(itemSize, itemsPerBlock, j);
    MulStrict(i, j, itemSize);
    FarApart(ItemOffset(itemSize, itemsPerBlock, i), ItemOffset(itemSize, itemsPerBlock, j), Pow2(bitsShift));
  }

  lemma FarApart(a: nat, b: nat, p: nat)
    requires p > 0 && a + p <= b
    ensures a / p < b / p
  {
    assert a == (a / p) * p + a % p && b == (b / p) * p + b % p;
    var q, s := a / p, b / p;
    if s <= q { MulLe(s, q, p); }
  }
}
