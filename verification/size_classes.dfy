/**
 * Size classes of free lumps (src/runtime/gc.c): a linear distribution up to 1024
 * bytes, then powers of two.
 */
module SizeClasses {
  import opened Header

  const MAX_SMALLSIZE := 1024
  const MAX_EXPONENT := 16
  const STEP := 2 * MEMALIGN
  const SIZE_CLASSES := MAX_SMALLSIZE / STEP + MAX_EXPONENT + 1

  /** 1024 * 2^16 */
  const MAX_CLASSED := 67108864

  /** How often a size has to be halved until it is at most 1024. */
  ghost function Halvings(size: int): nat
  {
    if size <= MAX_SMALLSIZE then 0 else 1 + Halvings(size / 2)
  }

  ghost function SizeClass(size: int): int
  {
    if size <= MAX_SMALLSIZE then size / STEP
    else if size > MAX_CLASSED then SIZE_CLASSES - 1
    else MAX_SMALLSIZE / STEP + Halvings(size)
  }

  /** size_class */
  method ComputeSizeClass(size: int) returns (c: int)
    requires size > 0 && size % STEP == 0
    ensures c == SizeClass(size) && 0 < c < SIZE_CLASSES
  {
    ClassBounds(size);
    if size <= MAX_SMALLSIZE {
      return size / STEP;
    }
    if size > MAX_CLASSED {
      return SIZE_CLASSES - 1;
    }
    c := MAX_SMALLSIZE / STEP;
    var s := size;
    while s > MAX_SMALLSIZE
      invariant s > 0 && c + Halvings(s) == SizeClass(size)
    {
      c, s := c + 1, s / 2;
    }
  }

  /** The largest size that k halvings bring down to 1024 is just below 1025 * 2^k. */
  ghost function Limit(k: nat): int { if k == 0 then MAX_SMALLSIZE + 1 else 2 * Limit(k - 1) }

  lemma {:induction false} HalvingsAtMost(size: int, k: nat)
    ensures Halvings(size) <= k <==> size < Limit(k)
    decreases k
  {
    if k > 0 && size > MAX_SMALLSIZE { HalvingsAtMost(size / 2, k - 1); }
    if k > 0 { LimitGrows(k); }
  }

  lemma {:induction false} LimitGrows(k: nat)
    ensures Limit(k) > MAX_SMALLSIZE
    decreases k
  {
    if k > 0 { LimitGrows(k - 1); }
  }

  lemma {:induction false} LimitSum(a: nat, b: nat, factor: int)
    requires Limit(b) == (MAX_SMALLSIZE + 1) * factor
    ensures Limit(a + b) == Limit(a) * factor
    decreases a
  {
    if a > 0 { LimitSum(a - 1, b, factor); }
  }

  lemma LimitValues()
    ensures Limit(MAX_EXPONENT - 1) == 1025 * 32768 && Limit(MAX_EXPONENT) == 1025 * 65536
  {
    assert Limit(4) == 1025 * 16;
    LimitSum(4, 4, 16);
    LimitSum(7, 8, 256);
    LimitSum(3, 4, 16);
  }

  /** Classes lie in the table; the last one is reached. */
  lemma ClassBounds(size: int)
    requires size > 0 && size % STEP == 0
    ensures 0 < SizeClass(size) < SIZE_CLASSES
    ensures size > MAX_SMALLSIZE ==> SizeClass(size) > MAX_SMALLSIZE / STEP
  {
    if MAX_SMALLSIZE < size <= MAX_CLASSED {
      LimitValues();
      HalvingsAtMost(size, MAX_EXPONENT);
    }
  }

  /**
   * The code asserts that a class computed by halving is below the last one.  That holds
   * exactly for sizes below 1025 * 2^15, although sizes up to 1024 * 2^16 are classed that way.
   */
  lemma AssertedBelowLast(size: int)
    requires MAX_SMALLSIZE < size <= MAX_CLASSED
    ensures SizeClass(size) < SIZE_CLASSES - 1 <==> size < 1025 * 32768
  {
    LimitValues();
    HalvingsAtMost(size, MAX_EXPONENT - 1);
  }

  /**
   * Up to 1024 bytes there is a class for every multiple of 16; from there on, up to 1024 * 2^16
   * bytes, the k-th class has the sizes from 1025 * 2^(k-1) up to 1025 * 2^k; the last class has
   * all larger ones.
   */
  lemma ClassExact(size: int, k: nat)
    requires size > 0 && size % STEP == 0 && k > 0
    ensures size <= 1024 ==> SizeClass(size) * 16 == size
    ensures 1024 < size <= MAX_CLASSED ==> (SizeClass(size) == 64 + k <==> Limit(k - 1) <= size < Limit(k))
    ensures size > MAX_CLASSED ==> SizeClass(size) == 80
  {
    HalvingsAtMost(size, k);
    HalvingsAtMost(size, k - 1);
  }

  lemma AssertionFails()
    ensures SizeClass(MAX_CLASSED) == SIZE_CLASSES - 1
  {
    LimitValues();
    HalvingsAtMost(MAX_CLASSED, MAX_EXPONENT - 1);
    HalvingsAtMost(MAX_CLASSED, MAX_EXPONENT);
  }

  lemma {:induction false} HalvingsMonotone(a: int, b: int)
    requires a <= b
    ensures Halvings(a) <= Halvings(b)
    decreases b
  {
    if a > MAX_SMALLSIZE { HalvingsMonotone(a / 2, b / 2); }
  }

  /** A larger size is never in a smaller class. */
  lemma ClassMonotone(a: int, b: int)
    requires 0 < a <= b && a % STEP == 0 && b % STEP == 0
    ensures SizeClass(a) <= SizeClass(b)
  {
    ClassBounds(a);
    ClassBounds(b);
    HalvingsMonotone(a, b);
  }

  /** So a lump of a larger class is larger. */
  lemma LargerClass(a: int, b: int)
    requires a > 0 && b > 0 && a % STEP == 0 && b % STEP == 0 && SizeClass(a) < SizeClass(b)
    ensures a < b
  {
    if b <= a { ClassMonotone(b, a); }
  }
}
