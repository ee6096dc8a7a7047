/**
 * sort_objects (src/runtime/gc.c): the radix sort of the live set before a
 * selective sweep.  Three stable counting passes over 11-bit digits move the
 * set back and forth between the two halves of the mark stack.
 *
 * The number of buckets is passed around as `radix`, always RADIX_SIZE, so that
 * the verifier never unrolls a definition 2048 times.
 */
module SortObjects {
  const RADIX_SIZE := 2048
  const ADDRESS_SPACE := 0x1_0000_0000

  predicate IsShift(shift: nat) { shift == 0 || shift == 11 || shift == 22 }

  /** 2 to the power of a pass's shift. */
  function Weight(shift: nat): (w: nat)
    requires IsShift(shift)
    ensures w > 0
  {
    if shift == 0 then 1 else if shift == 11 then 2048 else 4194304
  }

  /** The digit a pass sorts by: (x >> shift) & RADIX_MASK. */
  function Digit(x: int, shift: nat): (d: nat)
    requires IsShift(shift)
    ensures d < RADIX_SIZE
  {
    if shift == 0 then x % 2048 else if shift == 11 then x / 2048 % 2048 else x / 4194304 % 2048
  }

  // ---------------------------------------------------------------------------
  // One pass: the elements of each digit in turn, in their old order
  // ---------------------------------------------------------------------------

  ghost function WithDigit(s: seq<int>, shift: nat, d: nat): seq<int>
    requires IsShift(shift)
  {
    if s == [] then []
    else WithDigit(s[..|s| - 1], shift, d) + (if Digit(s[|s| - 1], shift) == d then [s[|s| - 1]] else [])
  }

  ghost function Buckets(s: seq<int>, shift: nat, d: nat): seq<int>
    requires IsShift(shift)
  {
    if d == 0 then [] else Buckets(s, shift, d - 1) + WithDigit(s, shift, d - 1)
  }

  /** Where the elements with digit d start, and how many there are. */
  ghost function Start(s: seq<int>, shift: nat, d: nat): nat requires IsShift(shift) { |Buckets(s, shift, d)| }
  ghost function Total(s: seq<int>, shift: nat, d: nat): nat requires IsShift(shift) { |WithDigit(s, shift, d)| }

  /** How often x occurs in s. */
  ghost function Count(s: seq<int>, x: int): nat
  {
    if s == [] then 0 else Count(s[..|s| - 1], x) + if s[|s| - 1] == x then 1 else 0
  }

  lemma {:induction false} CountAppend(a: seq<int>, b: seq<int>, x: int)
    ensures Count(a + b, x) == Count(a, x) + Count(b, x)
    decreases |b|
  {
    if b == [] {
      assert a + b == a;
    } else {
      assert (a + b)[..|a + b| - 1] == a + b[..|b| - 1];
      CountAppend(a, b[..|b| - 1], x);
    }
  }

  lemma {:induction false} CountIsMultiplicity(s: seq<int>, x: int)
    ensures multiset(s)[x] == Count(s, x)
    decreases |s|
  {
    if s != [] {
      CountIsMultiplicity(s[..|s| - 1], x);
      assert s == s[..|s| - 1] + [s[|s| - 1]];
    }
  }

  lemma {:induction false} WithDigitCounts(s: seq<int>, shift: nat, d: nat, x: int)
    requires IsShift(shift)
    ensures Count(WithDigit(s, shift, d), x) == if Digit(x, shift) == d then Count(s, x) else 0
    decreases |s|
  {
    if s != [] {
      var init, last := s[..|s| - 1], s[|s| - 1];
      WithDigitCounts(init, shift, d, x);
      CountAppend(WithDigit(init, shift, d), if Digit(last, shift) == d then [last] else [], x);
      assert [last][..0] == [];
    }
  }

  lemma {:induction false} BucketsCounts(s: seq<int>, shift: nat, d: nat, x: int)
    requires IsShift(shift)
    ensures Count(Buckets(s, shift, d), x) == if Digit(x, shift) < d then Count(s, x) else 0
    decreases d
  {
    if d > 0 {
      BucketsCounts(s, shift, d - 1, x);
      WithDigitCounts(s, shift, d - 1, x);
      CountAppend(Buckets(s, shift, d - 1), WithDigit(s, shift, d - 1), x);
    }
  }

  /** A pass permutes its input. */
  lemma PassPermutes(s: seq<int>, shift: nat, radix: nat)
    requires IsShift(shift) && radix == RADIX_SIZE
    ensures multiset(Buckets(s, shift, radix)) == multiset(s)
    ensures |Buckets(s, shift, radix)| == |s|
  {
    var b := Buckets(s, shift, radix);
    forall x
      ensures multiset(b)[x] == multiset(s)[x]
    {
      BucketsCounts(s, shift, radix, x);
      CountIsMultiplicity(b, x);
      CountIsMultiplicity(s, x);
    }
    assert multiset(b) == multiset(s);
    assert |multiset(b)| == |b| && |multiset(s)| == |s|;
  }

  lemma {:induction false} StartsGrow(s: seq<int>, shift: nat, d: nat, e: nat)
    requires IsShift(shift) && d <= e
    ensures Start(s, shift, d) <= Start(s, shift, e)
    decreases e
  {
    if d < e { StartsGrow(s, shift, d, e - 1); }
  }

  lemma StartNext(s: seq<int>, shift: nat, d: nat)
    requires IsShift(shift)
    ensures Start(s, shift, d + 1) == Start(s, shift, d) + Total(s, shift, d)
  {
  }

  /** No more elements with digit d have been seen than there are. */
  lemma {:induction false} SeenOfDigit(s: seq<int>, j: nat, shift: nat, d: nat)
    requires IsShift(shift) && j <= |s|
    ensures Total(s[..j], shift, d) <= Total(s, shift, d)
    decreases |s|
  {
    if j < |s| {
      assert s[..|s| - 1][..j] == s[..j];
      SeenOfDigit(s[..|s| - 1], j, shift, d);
    } else {
      assert s[..j] == s;
    }
  }

  lemma NextOfDigit(s: seq<int>, j: nat, shift: nat, d: nat)
    requires IsShift(shift) && j < |s|
    ensures WithDigit(s[..j + 1], shift, d) ==
            WithDigit(s[..j], shift, d) + (if Digit(s[j], shift) == d then [s[j]] else [])
  {
    assert s[..j + 1][..j] == s[..j];
  }

  // ---------------------------------------------------------------------------
  // Why three passes sort
  // ---------------------------------------------------------------------------

  /** Sorted by the bits that weigh less than w. */
  ghost predicate SortedBelow(s: seq<int>, w: nat)
    requires w > 0
  {
    forall i, j :: 0 <= i < j < |s| ==> s[i] % w <= s[j] % w
  }

  ghost predicate Sorted(s: seq<int>) { forall i, j :: 0 <= i < j < |s| ==> s[i] <= s[j] }

  ghost predicate Addresses(s: seq<int>) { forall k :: 0 <= k < |s| ==> 0 <= s[k] < ADDRESS_SPACE }

  lemma MultipleGrows(k: int, m: nat)
    ensures k >= 1 ==> k * m >= m
    ensures k <= -1 ==> k * m + m <= 0
  {
  }

  lemma RemainderIs(x: int, m: nat, q: int, r: nat)
    requires r < m && x == q * m + r
    ensures x % m == r
  {
    MultipleGrows(x / m - q, m);
    assert (x / m - q) * m == x / m * m - q * m;
  }

  lemma DigitSplits(x: int, shift: nat)
    requires IsShift(shift)
    ensures x % (Weight(shift) * RADIX_SIZE) == Digit(x, shift) * Weight(shift) + x % Weight(shift)
  {
    var w := Weight(shift);
    var high := x / w;
    var top, d, low := high / RADIX_SIZE, high % RADIX_SIZE, x % w;
    assert d == Digit(x, shift) && high == top * RADIX_SIZE + d && x == high * w + low;
    assert d * w + low < w * RADIX_SIZE;
    assert (top * RADIX_SIZE + d) * w == top * (w * RADIX_SIZE) + d * w;
    RemainderIs(x, w * RADIX_SIZE, top, d * w + low);
  }

  /** Comparing through a digit: the digit first, the bits below it on a tie. */
  lemma CompareThrough(x: int, y: int, shift: nat)
    requires IsShift(shift)
    requires Digit(x, shift) < Digit(y, shift)
             || (Digit(x, shift) == Digit(y, shift) && x % Weight(shift) <= y % Weight(shift))
    ensures x % (Weight(shift) * RADIX_SIZE) <= y % (Weight(shift) * RADIX_SIZE)
  {
    DigitSplits(x, shift);
    DigitSplits(y, shift);
    var w := Weight(shift);
    var dx, dy := Digit(x, shift), Digit(y, shift);
    if dx < dy {
      assert dx * w + w <= dy * w;
    }
  }

  lemma {:induction false} WithDigitSorted(s: seq<int>, shift: nat, d: nat)
    requires IsShift(shift) && SortedBelow(s, Weight(shift))
    ensures SortedBelow(WithDigit(s, shift, d), Weight(shift))
    ensures forall k :: 0 <= k < Total(s, shift, d) ==>
              WithDigit(s, shift, d)[k] in s && Digit(WithDigit(s, shift, d)[k], shift) == d
    decreases |s|
  {
    if s != [] {
      var w := Weight(shift);
      var init, last := s[..|s| - 1], s[|s| - 1];
      WithDigitSorted(init, shift, d);
      var kept, all := WithDigit(init, shift, d), WithDigit(s, shift, d);
      forall i, j | 0 <= i < j < |all|
        ensures all[i] % w <= all[j] % w
      {
        assert all[i] == kept[i] && kept[i] in init;
        var k :| 0 <= k < |init| && init[k] == all[i];
        assert s[k] == all[i];
        if j < |kept| {
          assert all[j] == kept[j];
        } else {
          assert all[j] == last;
        }
      }
    }
  }

  /** A stable pass on a sequence sorted below its digit is sorted through its digit. */
  lemma {:induction false} BucketsSorted(s: seq<int>, shift: nat, d: nat)
    requires IsShift(shift) && SortedBelow(s, Weight(shift))
    ensures SortedBelow(Buckets(s, shift, d), Weight(shift) * RADIX_SIZE)
    ensures forall k :: 0 <= k < Start(s, shift, d) ==> Digit(Buckets(s, shift, d)[k], shift) < d
    decreases d
  {
    if d > 0 {
      BucketsSorted(s, shift, d - 1);
      WithDigitSorted(s, shift, d - 1);
      var lo, hi := Buckets(s, shift, d - 1), WithDigit(s, shift, d - 1);
      assert |lo| == Start(s, shift, d - 1) && |hi| == Total(s, shift, d - 1);
      assert Buckets(s, shift, d) == lo + hi;
      hide Buckets, WithDigit, Digit;
      BucketAdded(lo, hi, shift, d - 1);
    }
  }

  /** Behind elements with smaller digits, a bucket sorted below its digit keeps the order through it. */
  lemma {:induction false} BucketAdded(lo: seq<int>, hi: seq<int>, shift: nat, d: nat)
    requires IsShift(shift) && SortedBelow(lo, Weight(shift) * RADIX_SIZE) && SortedBelow(hi, Weight(shift))
    requires (forall k :: 0 <= k < |lo| ==> Digit(lo[k], shift) < d)
    requires forall k :: 0 <= k < |hi| ==> Digit(hi[k], shift) == d
    ensures SortedBelow(lo + hi, Weight(shift) * RADIX_SIZE)
    ensures forall k :: 0 <= k < |lo + hi| ==> Digit((lo + hi)[k], shift) < d + 1
  {
    hide Digit, Weight;
    var all := lo + hi;
    forall i, j | 0 <= i < j < |all|
      ensures all[i] % (Weight(shift) * RADIX_SIZE) <= all[j] % (Weight(shift) * RADIX_SIZE)
    {
      if j < |lo| {
        assert all[i] == lo[i] && all[j] == lo[j];
      } else if i < |lo| {
        assert all[i] == lo[i] && all[j] == hi[j - |lo|];
        CompareThrough(all[i], all[j], shift);
      } else {
        assert all[i] == hi[i - |lo|] && all[j] == hi[j - |lo|];
        CompareThrough(all[i], all[j], shift);
      }
    }
  }

  /** One pass: a permutation, in order up to and including its digit. */
  lemma PassSorts(s: seq<int>, shift: nat, radix: nat)
    requires IsShift(shift) && SortedBelow(s, Weight(shift)) && radix == RADIX_SIZE
    ensures multiset(Buckets(s, shift, radix)) == multiset(s)
    ensures SortedBelow(Buckets(s, shift, radix), Weight(shift) * RADIX_SIZE)
  {
    PassPermutes(s, shift, radix);
    BucketsSorted(s, shift, radix);
  }

  /** Addresses have no bits above the last digit. */
  lemma SortedThrough(t: seq<int>)
    requires SortedBelow(t, Weight(22) * RADIX_SIZE) && Addresses(t)
    ensures Sorted(t)
  {
    forall i, j | 0 <= i < j < |t| ensures t[i] <= t[j] {
      RemainderIs(t[i], Weight(22) * RADIX_SIZE, 0, t[i]);
      RemainderIs(t[j], Weight(22) * RADIX_SIZE, 0, t[j]);
    }
  }

  lemma SameRange(s: seq<int>, t: seq<int>)
    requires multiset(s) == multiset(t) && Addresses(s)
    ensures Addresses(t)
  {
    forall k | 0 <= k < |t| ensures 0 <= t[k] < ADDRESS_SPACE {
      assert t[k] in multiset(t);
      assert t[k] in s;
    }
  }

  /** The three passes of sort_objects. */
  ghost function ThreePasses(s: seq<int>, radix: nat): seq<int>
  {
    Buckets(Buckets(Buckets(s, 0, radix), 11, radix), 22, radix)
  }

  /** Three passes, each on the bits above those already in order, sort 32-bit addresses. */
  lemma ThreePassesSort(s: seq<int>, radix: nat)
    requires radix == RADIX_SIZE && Addresses(s)
    ensures Sorted(ThreePasses(s, radix)) && multiset(ThreePasses(s, radix)) == multiset(s)
  {
    var one := Buckets(s, 0, radix);
    PassSorts(s, 0, radix);
    var two := Buckets(one, 11, radix);
    PassSorts(one, 11, radix);
    PassSorts(two, 22, radix);
    SameRange(s, ThreePasses(s, radix));
    SortedThrough(ThreePasses(s, radix));
  }

  // ---------------------------------------------------------------------------
  // The code
  // ---------------------------------------------------------------------------

  ghost predicate Totals(counts: seq<int>, s: seq<int>, shift: nat)
    requires IsShift(shift)
  {
    forall d :: 0 <= d < |counts| ==> counts[d] == Total(s, shift, d)
  }

  ghost predicate Starts(counts: seq<int>, s: seq<int>, shift: nat)
    requires IsShift(shift)
  {
    forall d :: 0 <= d < |counts| ==> counts[d] == Start(s, shift, d)
  }

  lemma CountOne(counts: seq<int>, s: seq<int>, j: nat, shift: nat)
    requires IsShift(shift) && j < |s| && |counts| == RADIX_SIZE && Totals(counts, s[..j], shift)
    ensures var r := Digit(s[j], shift);
            Totals(counts[r := counts[r] + 1], s[..j + 1], shift)
  {
    forall d | 0 <= d < |counts|
      ensures Total(s[..j + 1], shift, d) == Total(s[..j], shift, d) + if Digit(s[j], shift) == d then 1 else 0
    {
      NextOfDigit(s, j, shift, d);
    }
  }

  method ClearCounts(counts: array<int>)
    modifies counts
    ensures forall d :: 0 <= d < counts.Length ==> counts[d] == 0
  {
    for j := 0 to counts.Length
      invariant forall d :: 0 <= d < j ==> counts[d] == 0
    {
      counts[j] := 0;
    }
  }

  /** Count the digits of a[src..src+n]. */
  method CountDigits(a: array<int>, src: nat, n: nat, shift: nat, counts: array<int>)
    requires IsShift(shift) && src + n <= a.Length && counts.Length == RADIX_SIZE && counts != a
    modifies counts
    ensures Totals(counts[..], a[src..src + n], shift)
  {
    ghost var s := a[src..src + n];
    ClearCounts(counts);
    assert s[..0] == [];
    for j := 0 to n
      invariant Totals(counts[..], s[..j], shift)
    {
      CountOne(counts[..], s, j, shift);
      ghost var was := counts[..];
      var radix := Digit(a[src + j], shift);
      counts[radix] := counts[radix] + 1;
      assert counts[..] == was[radix := was[radix] + 1];
    }
    assert s[..n] == s;
  }

  /** Turn digit counts into the position at which each digit starts. */
  method SetPositions(counts: array<int>, ghost s: seq<int>, ghost shift: nat)
    requires IsShift(shift) && Totals(counts[..], s, shift)
    modifies counts
    ensures Starts(counts[..], s, shift)
  {
    var m := 0;
    for j := 0 to counts.Length
      invariant m == Start(s, shift, j)
      invariant forall d :: 0 <= d < j ==> counts[d] == Start(s, shift, d)
      invariant forall d :: j <= d < counts.Length ==> counts[d] == Total(s, shift, d)
    {
      StartNext(s, shift, j);
      var count := counts[j];
      counts[j] := m;
      m := m + count;
    }
  }

  /** Bucket d of `dst` holds the elements of s[..j] with digit d, and counts[d] is its end. */
  ghost predicate Distributed(s: seq<int>, j: nat, shift: nat, dst: seq<int>, counts: seq<int>, d: nat)
    requires IsShift(shift) && j <= |s| && d < |counts|
  {
    var from := Start(s, shift, d);
    counts[d] == from + Total(s[..j], shift, d) <= |dst| && dst[from..counts[d]] == WithDigit(s[..j], shift, d)
  }

  ghost predicate AllDistributed(s: seq<int>, j: nat, shift: nat, dst: seq<int>, counts: seq<int>)
    requires IsShift(shift) && j <= |s|
  {
    forall d :: 0 <= d < |counts| ==> Distributed(s, j, shift, dst, counts, d)
  }

  /** The slot for s[j] is inside the bucket of its digit. */
  lemma SlotInBucket(s: seq<int>, j: nat, shift: nat, dst: seq<int>, counts: seq<int>, radix: nat)
    requires IsShift(shift) && j < |s| && |dst| == |s| && |counts| == radix == RADIX_SIZE
    requires Distributed(s, j, shift, dst, counts, Digit(s[j], shift))
    ensures var r := Digit(s[j], shift);
            Start(s, shift, r) <= counts[r] < Start(s, shift, r + 1) <= |s|
  {
    var r := Digit(s[j], shift);
    hide Digit, WithDigit, Buckets, Start, IsShift;
    NextOfDigit(s, j, shift, r);
    SeenOfDigit(s, j + 1, shift, r);
    PassPermutes(s, shift, radix);
    StartsGrow(s, shift, r + 1, radix);
    StartNext(s, shift, r);
  }

  lemma StoreOne(dst: seq<int>, lo: nat, hi: nat, i: nat, x: int, seen: seq<int>)
    requires lo <= hi <= |dst| && i < |dst| && dst[lo..hi] == seen
    ensures i < lo || i >= hi ==> dst[i := x][lo..hi] == seen
    ensures i == hi ==> dst[i := x][lo..hi + 1] == seen + [x]
  {
  }

  /** Storing s[j] there extends its bucket ... */
  lemma StoreInBucket(s: seq<int>, j: nat, shift: nat, dst: seq<int>, counts: seq<int>)
    requires IsShift(shift) && j < |s| && |dst| == |s| && |counts| == RADIX_SIZE
    requires Distributed(s, j, shift, dst, counts, Digit(s[j], shift)) && counts[Digit(s[j], shift)] < |dst|
    ensures var r := Digit(s[j], shift);
            Distributed(s, j + 1, shift, dst[counts[r] := s[j]], counts[r := counts[r] + 1], r)
  {
    var r := Digit(s[j], shift);
    NextOfDigit(s, j, shift, r);
    StoreOne(dst, Start(s, shift, r), counts[r], counts[r], s[j], WithDigit(s[..j], shift, r));
  }

  lemma BucketsApart(s: seq<int>, j: nat, shift: nat, d: nat, r: nat)
    requires IsShift(shift) && j <= |s| && d != r
    ensures Start(s, shift, d) + Total(s[..j], shift, d) <= Start(s, shift, r)
            || Start(s, shift, r + 1) <= Start(s, shift, d)
  {
    if d < r {
      SeenOfDigit(s, j, shift, d);
      StartNext(s, shift, d);
      StartsGrow(s, shift, d + 1, r);
    } else {
      StartsGrow(s, shift, r + 1, d);
    }
  }

  /** ... and touches no other. */
  lemma StoreOutOfBucket(s: seq<int>, j: nat, shift: nat, dst: seq<int>, counts: seq<int>, d: nat)
    requires IsShift(shift) && j < |s| && |dst| == |s| && |counts| == RADIX_SIZE && d < |counts|
    requires Distributed(s, j, shift, dst, counts, d) && d != Digit(s[j], shift)
    requires var r := Digit(s[j], shift);
             Start(s, shift, r) <= counts[r] < Start(s, shift, r + 1) <= |s|
    ensures var r := Digit(s[j], shift);
            Distributed(s, j + 1, shift, dst[counts[r] := s[j]], counts[r := counts[r] + 1], d)
  {
    var r := Digit(s[j], shift);
    NextOfDigit(s, j, shift, d);
    BucketsApart(s, j, shift, d, r);
    StoreOne(dst, Start(s, shift, d), counts[d], counts[r], s[j], WithDigit(s[..j], shift, d));
  }

  lemma AllStep(s: seq<int>, j: nat, shift: nat, dst: seq<int>, counts: seq<int>, radix: nat)
    requires IsShift(shift) && j < |s| && |dst| == |s| && |counts| == radix == RADIX_SIZE
    requires AllDistributed(s, j, shift, dst, counts)
    ensures var r := Digit(s[j], shift);
            && 0 <= counts[r] < |dst|
            && AllDistributed(s, j + 1, shift, dst[counts[r] := s[j]], counts[r := counts[r] + 1])
  {
    var r := Digit(s[j], shift);
    assert Distributed(s, j, shift, dst, counts, r);
    SlotInBucket(s, j, shift, dst, counts, radix);
    var dst', counts' := dst[counts[r] := s[j]], counts[r := counts[r] + 1];
    var next := j + 1;
    forall d | 0 <= d < |counts'| ensures Distributed(s, next, shift, dst', counts', d) {
      assert Distributed(s, j, shift, dst, counts, d);
      if d == r {
        StoreInBucket(s, j, shift, dst, counts);
      } else {
        StoreOutOfBucket(s, j, shift, dst, counts, d);
      }
    }
  }

  /** When every bucket is full the destination is the whole pass. */
  lemma {:induction false} DistributeDone(s: seq<int>, shift: nat, dst: seq<int>, counts: seq<int>, d: nat)
    requires IsShift(shift) && |dst| == |s| && d <= |counts|
    requires AllDistributed(s, |s|, shift, dst, counts)
    ensures Buckets(s, shift, d) <= dst
  {
    if d > 0 {
      DistributeDone(s, shift, dst, counts, d - 1);
      assert Distributed(s, |s|, shift, dst, counts, d - 1);
      assert s[..|s|] == s;
    }
  }

  /** dump[counts[r]++] = x */
  method Place(a: array<int>, ghost src: nat, dst: nat, ghost n: nat, counts: array<int>, r: nat, x: int)
    requires src + n <= a.Length && dst + n <= a.Length && (src + n <= dst || dst + n <= src)
    requires r < counts.Length && counts != a && 0 <= counts[r] < n
    modifies a, counts
    ensures a[src..src + n] == old(a[src..src + n])
    ensures a[dst..dst + n] == old(a[dst..dst + n])[old(counts[r]) := x]
    ensures counts[..] == old(counts[..])[r := old(counts[r]) + 1]
  {
    a[dst + counts[r]] := x;
    counts[r] := counts[r] + 1;
  }

  /** Move a[src..src+n] to a[dst..dst+n] in digit order. */
  method Distribute(a: array<int>, src: nat, dst: nat, n: nat, shift: nat, counts: array<int>, ghost radix: nat)
    requires IsShift(shift) && src + n <= a.Length && dst + n <= a.Length && (src + n <= dst || dst + n <= src)
    requires counts.Length == radix == RADIX_SIZE && counts != a
    requires Starts(counts[..], a[src..src + n], shift)
    modifies a, counts
    ensures a[dst..dst + n] == Buckets(old(a[src..src + n]), shift, radix)
  {
    hide AllDistributed, Buckets, Starts, Digit;
    ghost var s := a[src..src + n];
    DistributeBegins(s, shift, a[dst..dst + n], counts[..], radix);
    for j := 0 to n
      invariant a[src..src + n] == s
      invariant AllDistributed(s, j, shift, a[dst..dst + n], counts[..])
    {
      AllStep(s, j, shift, a[dst..dst + n], counts[..], radix);
      var x := a[src + j];
      assert x == s[j];
      Place(a, src, dst, n, counts, Digit(x, shift), x);
    }
    PassPermutes(s, shift, radix);
    DistributeDone(s, shift, a[dst..dst + n], counts[..], radix);
  }

  lemma DistributeBegins(s: seq<int>, shift: nat, dst: seq<int>, counts: seq<int>, radix: nat)
    requires IsShift(shift) && |dst| == |s| && |counts| == radix == RADIX_SIZE && Starts(counts, s, shift)
    ensures AllDistributed(s, 0, shift, dst, counts)
  {
    PassPermutes(s, shift, radix);
    forall d | 0 <= d < |counts| ensures Distributed(s, 0, shift, dst, counts, d) {
      StartsGrow(s, shift, d, radix);
      assert s[..0] == [];
    }
  }

  /** One counting sort of a[src..src+n] into a[dst..dst+n]. */
  method Pass(a: array<int>, src: nat, dst: nat, n: nat, shift: nat, counts: array<int>, ghost radix: nat)
    requires IsShift(shift) && src + n <= a.Length && dst + n <= a.Length && (src + n <= dst || dst + n <= src)
    requires counts.Length == radix == RADIX_SIZE && counts != a
    modifies a, counts
    ensures a[dst..dst + n] == Buckets(old(a[src..src + n]), shift, radix)
  {
    CountDigits(a, src, n, shift, counts);
    SetPositions(counts, a[src..src + n], shift);
    Distribute(a, src, dst, n, shift, counts, radix);
  }

  /**
   * sort_objects: with room for every address twice, the second half of the
   * buffer ends up holding the first half's addresses in increasing order.
   */
  method Sort(a: array<int>, n: nat) returns (at: nat)
    requires 2 * n <= a.Length && Addresses(a[..n])
    modifies a
    ensures at + n <= a.Length
    ensures Sorted(a[at..at + n]) && multiset(a[at..at + n]) == multiset(old(a[..n]))
  {
    ghost var s := a[..n];
    var counts := new int[RADIX_SIZE];
    ghost var radix: nat := RADIX_SIZE;
    var set_, dump := 0, n;
    assert a[set_..set_ + n] == s;
    Pass(a, set_, dump, n, 0, counts, radix);
    set_, dump := dump, set_;
    ghost var one := a[set_..set_ + n];
    Pass(a, set_, dump, n, 11, counts, radix);
    set_, dump := dump, set_;
    ghost var two := a[set_..set_ + n];
    Pass(a, set_, dump, n, 22, counts, radix);
    set_, dump := dump, set_;
    at := set_;
    assert a[at..at + n] == Buckets(two, 22, radix);
    assert a[at..at + n] == ThreePasses(s, radix);
    ThreePassesSort(s, radix);
  }
}
