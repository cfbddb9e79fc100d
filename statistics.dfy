/** The numeric side of the aggregation endpoints, over exact integers and
    rationals: Python's `statistics.median_high` and `statistics.mean`, NumPy's
    default (linear) `quantile`, and SQL's `max`. */
module Statistics {
  import opened Sequences

  predicate Sorted(s: seq<int>) {
    forall i, j :: 0 <= i <= j < |s| ==> s[i] <= s[j]
  }

  // ---------------------------------------------------------------------------
  // Ascending sort, specified by "sorted and a permutation of the input".

  lemma PrependSorted(x: int, t: seq<int>)
    requires Sorted(t)
    requires forall y :: y in t ==> x <= y
    ensures Sorted([x] + t)
  {
    var r := [x] + t;
    forall i, j | 0 <= i <= j < |r| ensures r[i] <= r[j] {
      if i == 0 && j > 0 {
        assert r[j] == t[j - 1];
        assert t[j - 1] in t;
      }
    }
  }

  function Insert(x: int, s: seq<int>): (r: seq<int>)
    requires Sorted(s)
    ensures Sorted(r)
    ensures multiset(r) == multiset(s) + multiset{x}
  {
    if s == [] || x <= s[0] then
      PrependSorted(x, s);
      [x] + s
    else
      var rest := Insert(x, s[1..]);
      assert s == [s[0]] + s[1..];
      assert forall y :: y in rest ==> s[0] <= y by {
        forall y | y in rest ensures s[0] <= y {
          assert y in multiset(rest);
          if y != x {
            assert y in s[1..];
          }
        }
      }
      PrependSorted(s[0], rest);
      [s[0]] + rest
  }

  /** The values in ascending order, as `median_high` and `np.quantile` see them. */
  function Sort(s: seq<int>): (r: seq<int>)
    ensures Sorted(r)
    ensures multiset(r) == multiset(s)
    ensures |r| == |s|
  {
    if s == [] then []
    else
      assert s == [s[0]] + s[1..];
      var r := Insert(s[0], Sort(s[1..]));
      assert |r| == |multiset(r)| == |multiset(s)|;
      r
  }

  lemma SortedHeadIsLeast(s: seq<int>, y: int)
    requires Sorted(s) && y in s
    ensures s[0] <= y
  {
    var j :| 0 <= j < |s| && s[j] == y;
  }

  lemma SortedTail(s: seq<int>)
    requires Sorted(s) && |s| > 0
    ensures Sorted(s[1..])
  {
    var t := s[1..];
    forall i, j | 0 <= i <= j < |t| ensures t[i] <= t[j] {
      assert t[i] == s[i + 1] && t[j] == s[j + 1];
    }
  }

  lemma MultisetTail(a: seq<int>, b: seq<int>)
    requires |a| > 0 && |b| > 0 && a[0] == b[0]
    requires multiset(a) == multiset(b)
    ensures multiset(a[1..]) == multiset(b[1..])
  {
    assert a == [a[0]] + a[1..] && b == [b[0]] + b[1..];
    assert multiset(a) == multiset{a[0]} + multiset(a[1..]);
    assert multiset(b) == multiset{b[0]} + multiset(b[1..]);
    forall x ensures multiset(a[1..])[x] == multiset(b[1..])[x] {
      assert multiset(a)[x] == multiset(b)[x];
    }
  }

  /** Two sorted sequences with the same elements are equal. */
  lemma {:induction false} SortedUnique(a: seq<int>, b: seq<int>)
    requires Sorted(a) && Sorted(b)
    requires multiset(a) == multiset(b)
    ensures a == b
  {
    assert |a| == |multiset(a)| == |multiset(b)| == |b|;
    if a != [] {
      assert a[0] in multiset(b) && b[0] in multiset(a);
      SortedHeadIsLeast(b, a[0]);
      SortedHeadIsLeast(a, b[0]);
      MultisetTail(a, b);
      SortedTail(a);
      SortedTail(b);
      SortedUnique(a[1..], b[1..]);
      assert a == [a[0]] + a[1..] && b == [b[0]] + b[1..];
    }
  }

  /** Sorting depends only on which values there are, not on their order. */
  lemma SortIgnoresOrder(a: seq<int>, b: seq<int>)
    requires multiset(a) == multiset(b)
    ensures Sort(a) == Sort(b)
  {
    SortedUnique(Sort(a), Sort(b));
  }

  /** Sorting an ascending sequence leaves it as it is. */
  lemma SortOfSorted(s: seq<int>)
    requires Sorted(s)
    ensures Sort(s) == s
  {
    SortedUnique(Sort(s), s);
  }

  // ---------------------------------------------------------------------------
  // Extremes and sum.

  /** The largest value (SQL `max(value)` over a non-empty group). */
  function Max(s: seq<int>): (m: int)
    requires |s| > 0
    ensures m in s
    ensures forall x :: x in s ==> x <= m
  {
    if |s| == 1 then s[0]
    else
      assert s == [s[0]] + s[1..];
      var t := Max(s[1..]);
      if s[0] >= t then s[0] else t
  }

  /** The smallest value. */
  function Min(s: seq<int>): (m: int)
    requires |s| > 0
    ensures m in s
    ensures forall x :: x in s ==> m <= x
  {
    if |s| == 1 then s[0]
    else
      assert s == [s[0]] + s[1..];
      var t := Min(s[1..]);
      if s[0] <= t then s[0] else t
  }

  lemma WithinExtremes(s: seq<int>, x: int)
    requires x in multiset(s)
    ensures |s| > 0 && Min(s) <= x <= Max(s)
  {
    assert x in s;
  }

  function Sum(s: seq<int>): int {
    if s == [] then 0 else s[0] + Sum(s[1..])
  }

  lemma {:induction false} SumAtLeast(s: seq<int>, lo: int)
    requires forall x :: x in s ==> lo <= x
    ensures |s| * lo <= Sum(s)
  {
    if s != [] {
      assert s[0] in s;
      assert forall x :: x in s[1..] ==> x in s;
      SumAtLeast(s[1..], lo);
    }
  }

  lemma {:induction false} SumAtMost(s: seq<int>, hi: int)
    requires forall x :: x in s ==> x <= hi
    ensures Sum(s) <= |s| * hi
  {
    if s != [] {
      assert s[0] in s;
      assert forall x :: x in s[1..] ==> x in s;
      SumAtMost(s[1..], hi);
    }
  }

  lemma {:induction false} SumInsert(x: int, s: seq<int>)
    requires Sorted(s)
    ensures Sum(Insert(x, s)) == x + Sum(s)
  {
    if s != [] && x > s[0] {
      SumInsert(x, s[1..]);
    }
  }

  lemma {:induction false} SumOfSort(s: seq<int>)
    ensures Sum(Sort(s)) == Sum(s)
  {
    if s != [] {
      SumOfSort(s[1..]);
      SumInsert(s[0], Sort(s[1..]));
    }
  }

  /** The sum depends only on which values there are, not on their order. */
  lemma SumIgnoresOrder(a: seq<int>, b: seq<int>)
    requires multiset(a) == multiset(b)
    ensures Sum(a) == Sum(b)
  {
    SortIgnoresOrder(a, b);
    SumOfSort(a);
    SumOfSort(b);
  }

  // ---------------------------------------------------------------------------
  // Mean (`statistics.mean`), exact.

  lemma DivideBounds(lo: int, total: int, hi: int, n: int)
    requires n > 0 && n * lo <= total <= n * hi
    ensures lo as real <= total as real / n as real <= hi as real
  {
    var m := total as real / n as real;
    assert m * n as real == total as real;
    assert (n * lo) as real == n as real * lo as real;
    assert (n * hi) as real == n as real * hi as real;
  }

  lemma SumWithinExtremes(s: seq<int>)
    requires |s| > 0
    ensures |s| * Min(s) <= Sum(s) <= |s| * Max(s)
  {
    SumAtLeast(s, Min(s));
    SumAtMost(s, Max(s));
  }

  /** The arithmetic mean: the sum divided by the count. It never leaves
      the range of the values. */
  function Mean(s: seq<int>): (m: real)
    requires |s| > 0
    ensures Min(s) as real <= m <= Max(s) as real
  {
    SumWithinExtremes(s);
    DivideBounds(Min(s), Sum(s), Max(s), |s|);
    Sum(s) as real / |s| as real
  }

  // ---------------------------------------------------------------------------
  // High median (`statistics.median_high`).

  /** The element at index n div 2 of the ascending order: the middle one
      for an odd count, the larger of the two middle ones for an even count. */
  function MedianHigh(s: seq<int>): (m: int)
    requires |s| > 0
    ensures m in s
  {
    var sorted := Sort(s);
    assert sorted[|s| / 2] in multiset(s);
    sorted[|s| / 2]
  }

  function Below(m: int): int -> bool {
    x => x < m
  }

  function Above(m: int): int -> bool {
    x => x > m
  }

  /** How many values are strictly below / strictly above `m`. */
  function CountBelow(s: seq<int>, m: int): nat {
    |Filter(s, Below(m))|
  }

  function CountAbove(s: seq<int>, m: int): nat {
    |Filter(s, Above(m))|
  }

  /** In a sorted sequence every value below s[k] sits before index k. */
  lemma CountBelowSorted(s: seq<int>, k: nat)
    requires Sorted(s) && k < |s|
    ensures CountBelow(s, s[k]) <= k
  {
    var m := s[k];
    assert s == s[..k] + s[k..];
    FilterConcat(s[..k], s[k..], Below(m));
    FilterDropsAll(s[k..], Below(m));
  }

  /** In a sorted sequence every value above s[k] sits after index k. */
  lemma CountAboveSorted(s: seq<int>, k: nat)
    requires Sorted(s) && k < |s|
    ensures CountAbove(s, s[k]) <= |s| - 1 - k
  {
    var m := s[k];
    assert s == s[..k + 1] + s[k + 1..];
    FilterConcat(s[..k + 1], s[k + 1..], Above(m));
    FilterDropsAll(s[..k + 1], Above(m));
  }

  /** A value below s[k] has at least the n - k values from index k on above it. */
  lemma CountAboveSortedLower(s: seq<int>, k: nat, m: int)
    requires Sorted(s) && k < |s| && m < s[k]
    ensures CountAbove(s, m) >= |s| - k
  {
    assert s == s[..k] + s[k..];
    FilterConcat(s[..k], s[k..], Above(m));
    FilterKeepsAll(s[k..], Above(m));
  }

  /** A value above s[k] has at least the k + 1 values up to index k below it. */
  lemma CountBelowSortedLower(s: seq<int>, k: nat, m: int)
    requires Sorted(s) && k < |s| && s[k] < m
    ensures CountBelow(s, m) >= k + 1
  {
    assert s == s[..k + 1] + s[k + 1..];
    FilterConcat(s[..k + 1], s[k + 1..], Below(m));
    FilterKeepsAll(s[..k + 1], Below(m));
  }

  /** The high median, characterised without sorting: a value of `s` with at
      most n div 2 values below it and at most n - 1 - n div 2 above it. Both
      directions hold, so exactly one value qualifies. */
  lemma MedianHighIsRank(s: seq<int>, m: int)
    requires |s| > 0
    ensures m == MedianHigh(s) <==>
      m in s && CountBelow(s, m) <= |s| / 2 && CountAbove(s, m) <= |s| - 1 - |s| / 2
  {
    var sorted, k := Sort(s), |s| / 2;
    FilterPermutation(s, sorted, Below(m));
    FilterPermutation(s, sorted, Above(m));
    if m == MedianHigh(s) {
      CountBelowSorted(sorted, k);
      CountAboveSorted(sorted, k);
    } else if m < sorted[k] {
      CountAboveSortedLower(sorted, k, m);
    } else {
      CountBelowSortedLower(sorted, k, m);
    }
  }

  // ---------------------------------------------------------------------------
  // Quantiles (`np.quantile`, default method 'linear': Hyndman and Fan
  // definition 7). The probability p is the exact fraction num / den.

  lemma RankBelowCount(n: nat, num: nat, den: nat)
    requires n > 0 && 0 < den && num <= den
    ensures (num * (n - 1)) / den <= n - 1
  {
    var h := num * (n - 1);
    var i := h / den;
    assert h <= den * (n - 1) by {
      assert (den - num) * (n - 1) >= 0;
    }
    assert i * den <= h;
  }

  /** The lower bracketing index: the integer part of the rank p * (n - 1). */
  function LowIndex(n: nat, num: nat, den: nat): (i: nat)
    requires n > 0 && 0 < den && num <= den
    ensures i <= n - 1
  {
    RankBelowCount(n, num, den);
    (num * (n - 1)) / den
  }

  /** The fractional part of the rank p * (n - 1). */
  function Gamma(n: nat, num: nat, den: nat): (g: real)
    requires n > 0 && 0 < den && num <= den
    ensures 0.0 <= g < 1.0
  {
    ((num * (n - 1)) % den) as real / den as real
  }

  /** LowIndex is the floor of the rank p * (n - 1) ... */
  lemma LowIndexIsFloor(n: nat, num: nat, den: nat)
    requires n > 0 && 0 < den && num <= den
    ensures LowIndex(n, num, den) * den <= num * (n - 1) < (LowIndex(n, num, den) + 1) * den
  {
    var h, i := num * (n - 1), LowIndex(n, num, den);
    assert h == i * den + h % den;
    assert (i + 1) * den == i * den + den;
  }

  /** ... and Gamma its fractional part. */
  lemma GammaIsFraction(n: nat, num: nat, den: nat)
    requires n > 0 && 0 < den && num <= den
    ensures LowIndex(n, num, den) as real + Gamma(n, num, den) == (num * (n - 1)) as real / den as real
  {
    var h, i, r := num * (n - 1), LowIndex(n, num, den), (num * (n - 1)) % den;
    assert h == i * den + r;
    SplitQuotient(i, r, den);
  }

  lemma SplitQuotient(i: int, r: int, d: int)
    requires d > 0
    ensures i as real + r as real / d as real == (i * d + r) as real / d as real
  {
    assert (i * d) as real == i as real * d as real;
  }

  lemma MulMonotone(a: nat, b: nat, c: nat)
    requires a <= b
    ensures a * c <= b * c
  {
    assert b * c - a * c == (b - a) * c;
  }

  lemma MulCancelStrict(a: int, b: int, d: int)
    requires d > 0 && a * d < b * d
    ensures a < b
  {
  }

  /** Integer division by a positive divisor is monotone, and so is the
      remainder while the quotient stays the same. */
  lemma FloorDivMonotone(h1: nat, h2: nat, d: nat)
    requires h1 <= h2 && d > 0
    ensures h1 / d <= h2 / d
    ensures h1 / d == h2 / d ==> h1 % d <= h2 % d
  {
    var i1, i2, r1, r2 := h1 / d, h2 / d, h1 % d, h2 % d;
    assert h1 == i1 * d + r1 && h2 == i2 * d + r2;
    assert (i2 + 1) * d == i2 * d + d;
    MulCancelStrict(i1, i2 + 1, d);
  }

  lemma RealDivMonotone(a: int, b: int, d: int)
    requires a <= b && d > 0
    ensures a as real / d as real <= b as real / d as real
  {
  }

  /** A larger probability gives a rank that is not smaller. */
  lemma RankMonotone(n: nat, num1: nat, num2: nat, den: nat)
    requires n > 0 && 0 < den && num1 <= num2 <= den
    ensures LowIndex(n, num1, den) <= LowIndex(n, num2, den)
    ensures LowIndex(n, num1, den) == LowIndex(n, num2, den) ==> Gamma(n, num1, den) <= Gamma(n, num2, den)
  {
    var h1, h2 := num1 * (n - 1), num2 * (n - 1);
    MulMonotone(num1, num2, n - 1);
    FloorDivMonotone(h1, h2, den);
    if h1 / den == h2 / den {
      RealDivMonotone(h1 % den, h2 % den, den);
    }
  }

  function HighIndex(n: nat, num: nat, den: nat): (j: nat)
    requires n > 0 && 0 < den && num <= den
    ensures j < n
  {
    var i := LowIndex(n, num, den);
    if i + 1 < n then i + 1 else i
  }

  /** Linear interpolation at fraction `g` between `a` and `b`. */
  function Lerp(a: int, b: int, g: real): real {
    a as real + g * (b - a) as real
  }

  lemma LerpBetween(a: int, b: int, g: real)
    requires a <= b && 0.0 <= g <= 1.0
    ensures a as real <= Lerp(a, b, g) <= b as real
  {
    var d := (b - a) as real;
    assert 0.0 <= g * d <= d;
  }

  lemma LerpMonotone(a: int, b: int, g1: real, g2: real)
    requires a <= b && g1 <= g2
    ensures Lerp(a, b, g1) <= Lerp(a, b, g2)
  {
    var d := (b - a) as real;
    assert g1 * d <= g2 * d;
  }

  /** The quantile at p = num / den of the values `s`. */
  function Quantile(s: seq<int>, num: nat, den: nat): (q: real)
    requires |s| > 0 && 0 < den && num <= den
    ensures Min(s) as real <= q <= Max(s) as real
  {
    var sorted, n := Sort(s), |s|;
    var a, b := sorted[LowIndex(n, num, den)], sorted[HighIndex(n, num, den)];
    WithinExtremes(s, a);
    WithinExtremes(s, b);
    LerpBetween(a, b, Gamma(n, num, den));
    Lerp(a, b, Gamma(n, num, den))
  }

  /** The quantile lies between the two sorted values that bracket its rank. */
  lemma QuantileBracketed(s: seq<int>, num: nat, den: nat)
    requires |s| > 0 && 0 < den && num <= den
    ensures var n := |s|;
      Sort(s)[LowIndex(n, num, den)] as real <= Quantile(s, num, den) <= Sort(s)[HighIndex(n, num, den)] as real
  {
    var n := |s|;
    LerpBetween(Sort(s)[LowIndex(n, num, den)], Sort(s)[HighIndex(n, num, den)], Gamma(n, num, den));
  }

  /** A larger probability never gives a smaller quantile. */
  lemma QuantileMonotone(s: seq<int>, num1: nat, num2: nat, den: nat)
    requires |s| > 0 && 0 < den && num1 <= num2 <= den
    ensures Quantile(s, num1, den) <= Quantile(s, num2, den)
  {
    var sorted, n := Sort(s), |s|;
    var lo1, lo2 := LowIndex(n, num1, den), LowIndex(n, num2, den);
    RankMonotone(n, num1, num2, den);
    QuantileBracketed(s, num1, den);
    QuantileBracketed(s, num2, den);
    if lo1 == lo2 {
      LerpMonotone(sorted[lo1], sorted[HighIndex(n, num1, den)], Gamma(n, num1, den), Gamma(n, num2, den));
    } else {
      assert HighIndex(n, num1, den) <= lo2;
    }
  }

  /** The first quartile never exceeds the third. */
  lemma QuartilesOrdered(s: seq<int>)
    requires |s| > 0
    ensures Min(s) as real <= Quantile(s, 1, 4) <= Quantile(s, 3, 4) <= Max(s) as real
  {
    QuantileMonotone(s, 1, 3, 4);
  }

  // ---------------------------------------------------------------------------
  // Independence from the order in which the store returns the values.

  /** Every aggregate depends only on which values there are; in particular
      computing them on the values in ascending order (as an `order by value`
      query delivers them) gives the same results. */
  lemma AggregatesIgnoreOrder(a: seq<int>, b: seq<int>, num: nat, den: nat)
    requires |a| > 0 && multiset(a) == multiset(b)
    requires 0 < den && num <= den
    ensures |b| == |a|
    ensures Max(a) == Max(b) && MedianHigh(a) == MedianHigh(b)
    ensures Mean(a) == Mean(b) && Quantile(a, num, den) == Quantile(b, num, den)
  {
    assert |a| == |multiset(a)| == |multiset(b)| == |b|;
    SortIgnoresOrder(a, b);
    SumIgnoresOrder(a, b);
    forall x ensures x in a <==> x in b {
      assert x in a <==> x in multiset(a);
    }
  }

  // ---------------------------------------------------------------------------
  // Worked values.

  /** On values already in ascending order the high median is read off at
      index n div 2. */
  lemma MedianHighOfSorted(s: seq<int>)
    requires |s| > 0 && Sorted(s)
    ensures MedianHigh(s) == s[|s| / 2]
  {
    SortOfSorted(s);
  }

  lemma MedianHighEvenExample()
    ensures MedianHigh([10, 20, 30, 40]) == 30
  {
    var even := [10, 20, 30, 40];
    assert |even| / 2 == 2 && even[2] == 30;
    assert Sorted(even) by {
      forall i, j | 0 <= i <= j < |even| ensures even[i] <= even[j] {
        assert even[i] == 10 * (i + 1) && even[j] == 10 * (j + 1);
      }
    }
    MedianHighOfSorted(even);
  }

  lemma MedianHighOddExample()
    ensures MedianHigh([10, 20, 30]) == 20
  {
    var odd := [10, 20, 30];
    assert |odd| / 2 == 1 && odd[1] == 20;
    assert Sorted(odd) by {
      forall i, j | 0 <= i <= j < |odd| ensures odd[i] <= odd[j] {
        assert odd[i] == 10 * (i + 1) && odd[j] == 10 * (j + 1);
      }
    }
    MedianHighOfSorted(odd);
  }

  lemma MeanExample()
    ensures Mean([10, 20, 30]) == 20.0
  {
    assert Sum([10, 20, 30]) == 60;
  }

  /** On values already in ascending order the quantile interpolates
      between the elements at the two ranks that bracket p * (n - 1). */
  lemma QuantileOfSorted(s: seq<int>, num: nat, den: nat)
    requires |s| > 0 && 0 < den && num <= den && Sorted(s)
    ensures var n := |s|;
      Quantile(s, num, den) == Lerp(s[LowIndex(n, num, den)], s[HighIndex(n, num, den)], Gamma(n, num, den))
  {
    SortOfSorted(s);
  }

  lemma QuartileRanksOfTen()
    ensures LowIndex(10, 1, 4) == 2 && HighIndex(10, 1, 4) == 3 && Gamma(10, 1, 4) == 0.25
    ensures LowIndex(10, 3, 4) == 6 && HighIndex(10, 3, 4) == 7 && Gamma(10, 3, 4) == 0.75
  {
  }

  lemma FirstQuartileExample()
    ensures Quantile([1, 2, 3, 4, 5, 6, 7, 8, 9, 10], 1, 4) == 3.25
  {
    var s := [1, 2, 3, 4, 5, 6, 7, 8, 9, 10];
    assert |s| == 10 && s[2] == 3 && s[3] == 4;
    assert Sorted(s);
    QuantileOfSorted(s, 1, 4);
    QuartileRanksOfTen();
    assert Quantile(s, 1, 4) == Lerp(3, 4, 0.25);
  }

  lemma ThirdQuartileExample()
    ensures Quantile([1, 2, 3, 4, 5, 6, 7, 8, 9, 10], 3, 4) == 7.75
  {
    var s := [1, 2, 3, 4, 5, 6, 7, 8, 9, 10];
    assert |s| == 10 && s[6] == 7 && s[7] == 8;
    assert Sorted(s);
    QuantileOfSorted(s, 3, 4);
    QuartileRanksOfTen();
    assert Quantile(s, 3, 4) == Lerp(7, 8, 0.75);
  }
}
