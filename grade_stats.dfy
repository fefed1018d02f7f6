/**
 * The descriptive statistics the class analysis computes over grades:
 * sum, mean, minimum and maximum (PHP's `array_sum`, `min`, `max`), the
 * `$median` closure and the `$stdDev` closure of
 * `IaServiceController::generateAndStoreTurmaAnalysis`.
 *
 * Grades are exact reals. The closures' final `round(.., 2)` and the square
 * root of `$stdDev` are not modelled: `SampleVariance` is the quantity under
 * the root, so the standard deviation is its non-negative square root.
 */
module GradeStats {

  function Sum(xs: seq<real>): real
    decreases |xs|
  {
    if |xs| == 0 then 0.0 else xs[0] + Sum(xs[1..])
  }

  lemma {:induction false} SumAppend(xs: seq<real>, ys: seq<real>)
    ensures Sum(xs + ys) == Sum(xs) + Sum(ys)
    decreases |xs|
  {
    if |xs| == 0 {
      assert xs + ys == ys;
    } else {
      assert (xs + ys)[1..] == xs[1..] + ys;
      SumAppend(xs[1..], ys);
    }
  }

  /** `array_sum($xs) / count($xs)`, and 0 for no grades (the roster's and the report's policy). */
  function Mean(xs: seq<real>): real {
    if |xs| == 0 then 0.0 else Sum(xs) / (|xs| as real)
  }

  /** PHP's `min` of a non-empty array. */
  function MinOf(xs: seq<real>): (m: real)
    requires |xs| > 0
    ensures m in xs
    ensures forall k :: 0 <= k < |xs| ==> m <= xs[k]
    decreases |xs|
  {
    if |xs| == 1 then xs[0]
    else
      var rest := MinOf(xs[1..]);
      if xs[0] <= rest then xs[0] else rest
  }

  /** PHP's `max` of a non-empty array. */
  function MaxOf(xs: seq<real>): (m: real)
    requires |xs| > 0
    ensures m in xs
    ensures forall k :: 0 <= k < |xs| ==> xs[k] <= m
    decreases |xs|
  {
    if |xs| == 1 then xs[0]
    else
      var rest := MaxOf(xs[1..]);
      if xs[0] >= rest then xs[0] else rest
  }

  lemma {:induction false} SumBounds(xs: seq<real>, lo: real, hi: real)
    requires forall k :: 0 <= k < |xs| ==> lo <= xs[k] <= hi
    ensures (|xs| as real) * lo <= Sum(xs) <= (|xs| as real) * hi
    decreases |xs|
  {
    if |xs| > 0 {
      SumBounds(xs[1..], lo, hi);
      assert (|xs| as real) * lo == lo + (|xs[1..]| as real) * lo;
      assert (|xs| as real) * hi == hi + (|xs[1..]| as real) * hi;
    }
  }

  /** The mean of grades that all lie in [lo, hi] lies in [lo, hi]. */
  lemma MeanWithin(xs: seq<real>, lo: real, hi: real)
    requires |xs| > 0
    requires forall k :: 0 <= k < |xs| ==> lo <= xs[k] <= hi
    ensures lo <= Mean(xs) <= hi
  {
    SumBounds(xs, lo, hi);
    DivideBounds(Sum(xs), |xs| as real, lo, hi);
  }

  /** The mean of some grades lies between their smallest and their largest. */
  lemma MeanBetweenMinAndMax(xs: seq<real>)
    requires |xs| > 0
    ensures MinOf(xs) <= Mean(xs) <= MaxOf(xs)
  {
    MeanWithin(xs, MinOf(xs), MaxOf(xs));
  }

  lemma DivideBounds(s: real, n: real, lo: real, hi: real)
    requires n > 0.0 && n * lo <= s <= n * hi
    ensures lo <= s / n <= hi
  {
    var q := s / n;
    assert s == n * q;
    if q < lo {
      MultiplyStrict(n, q, lo);
    }
    if q > hi {
      MultiplyStrict(n, hi, q);
    }
  }

  lemma MultiplyStrict(n: real, a: real, b: real)
    requires n > 0.0 && a < b
    ensures n * a < n * b
  {
    assert n * b - n * a == n * (b - a);
  }

  /** `a * b`, with its sign stated for same-sign and zero factors. */
  function Product(a: real, b: real): (r: real)
    ensures (a > 0.0 && b > 0.0) || (a < 0.0 && b < 0.0) ==> r > 0.0
    ensures a == 0.0 || b == 0.0 ==> r == 0.0
  {
    if a > 0.0 && b > 0.0 then
      MultiplyStrict(a, 0.0, b);
      a * b
    else if a < 0.0 && b < 0.0 then
      MultiplyStrict(-a, 0.0, -b);
      assert (-a) * (-b) == a * b;
      a * b
    else a * b
  }

  /** `d * d`: never negative, and 0 only for `d == 0`. */
  function Square(d: real): (r: real)
    ensures r >= 0.0
    ensures r == 0.0 <==> d == 0.0
  {
    Product(d, d)
  }

  /** The mean of grades that are all equal to `x` is `x`. */
  lemma MeanOfConstant(xs: seq<real>, x: real)
    requires |xs| > 0
    requires forall k :: 0 <= k < |xs| ==> xs[k] == x
    ensures Mean(xs) == x
  {
    SumBounds(xs, x, x);
    assert Sum(xs) == (|xs| as real) * x;
  }

  // ---------------------------------------------------------------------
  // Sorting (PHP's `sort`, applied by `$median` to its own copy of the grades)

  predicate SortedAsc(s: seq<real>) {
    forall i, j :: 0 <= i < j < |s| ==> s[i] <= s[j]
  }

  function InsertAsc(x: real, s: seq<real>): (r: seq<real>)
    requires SortedAsc(s)
    ensures SortedAsc(r)
    ensures multiset(r) == multiset(s) + multiset{x}
    ensures |r| == |s| + 1
    ensures r[0] == x || (|s| > 0 && r[0] == s[0])
    decreases |s|
  {
    if |s| == 0 then [x]
    else if x <= s[0] then [x] + s
    else
      var t := InsertAsc(x, s[1..]);
      assert s == [s[0]] + s[1..];
      PrependAsc(s[0], t);
      [s[0]] + t
  }

  /** A grade at most the first one can go in front. */
  lemma PrependAsc(x: real, s: seq<real>)
    requires SortedAsc(s) && (|s| == 0 || x <= s[0])
    ensures SortedAsc([x] + s)
  {
    var r := [x] + s;
    forall i, j | 0 <= i < j < |r| ensures r[i] <= r[j] {
      assert r[j] == s[j - 1];
      if i > 0 {
        assert r[i] == s[i - 1];
      } else if j > 1 {
        assert s[0] <= s[j - 1];
      }
    }
  }

  /** `sort($arr)`: the grades in ascending order. */
  function SortAsc(xs: seq<real>): (r: seq<real>)
    ensures SortedAsc(r)
    ensures multiset(r) == multiset(xs)
    ensures |r| == |xs|
    decreases |xs|
  {
    if |xs| == 0 then []
    else
      assert xs == [xs[0]] + xs[1..];
      InsertAsc(xs[0], SortAsc(xs[1..]))
  }

  /** Grades already in order are left as they are by the sort. */
  lemma {:induction false} SortAscOfSorted(xs: seq<real>)
    requires SortedAsc(xs)
    ensures SortAsc(xs) == xs
    decreases |xs|
  {
    if |xs| > 0 {
      SortAscOfSorted(xs[1..]);
      assert xs == [xs[0]] + xs[1..];
    }
  }

  // ---------------------------------------------------------------------
  // The `$median` closure

  /**
   * `$median`: 0 for no grades; otherwise, on the sorted grades with
   * `middle = floor((count - 1) / 2)`, the middle grade when the count is odd
   * and the average of the grades at `middle` and `middle + 1` when it is even.
   */
  function Median(xs: seq<real>): (m: real)
    ensures |xs| == 0 ==> m == 0.0
    ensures |xs| > 0 ==> MinOf(xs) <= m <= MaxOf(xs)
  {
    if |xs| == 0 then 0.0
    else
      MiddleWithinBounds(xs);
      Middle(SortAsc(xs))
  }

  /** The middle of sorted grades, as `$median` takes it. */
  function Middle(s: seq<real>): real
    requires |s| > 0
  {
    var middle := (|s| - 1) / 2;
    if |s| % 2 == 1 then s[middle] else (s[middle] + s[middle + 1]) / 2.0
  }

  lemma MiddleWithinBounds(xs: seq<real>)
    requires |xs| > 0
    ensures MinOf(xs) <= Middle(SortAsc(xs)) <= MaxOf(xs)
  {
    SortedWithinBounds(xs);
    MiddleWithin(SortAsc(xs), MinOf(xs), MaxOf(xs));
  }

  /** The middle of grades that all lie in [lo, hi] lies in [lo, hi]. */
  lemma MiddleWithin(s: seq<real>, lo: real, hi: real)
    requires |s| > 0
    requires forall k :: 0 <= k < |s| ==> lo <= s[k] <= hi
    ensures lo <= Middle(s) <= hi
  {
    var middle := (|s| - 1) / 2;
    MiddleIndex(|s|);
    if |s| % 2 == 0 {
      AverageWithin(s[middle], s[middle + 1], lo, hi);
    }
  }

  /** Where `middle = floor((count - 1) / 2)` sits, for odd and for even counts. */
  lemma MiddleIndex(n: nat)
    requires n > 0
    ensures n % 2 == 1 ==> n == 2 * ((n - 1) / 2) + 1
    ensures n % 2 == 0 ==> n == 2 * ((n - 1) / 2) + 2
  {
  }

  lemma AverageWithin(a: real, b: real, lo: real, hi: real)
    requires lo <= a <= hi && lo <= b <= hi
    ensures lo <= (a + b) / 2.0 <= hi
  {
  }

  /** Every grade of the sorted copy is one of the grades, so it lies between their minimum and maximum. */
  lemma SortedWithinBounds(xs: seq<real>)
    requires |xs| > 0
    ensures forall k :: 0 <= k < |xs| ==> MinOf(xs) <= SortAsc(xs)[k] <= MaxOf(xs)
  {
    var s := SortAsc(xs);
    forall k | 0 <= k < |xs| ensures MinOf(xs) <= s[k] <= MaxOf(xs) {
      assert s[k] in multiset(s);
      assert s[k] in xs;
    }
  }

  /** How many grades are at most `m`. */
  function CountAtMost(xs: seq<real>, m: real): (c: nat)
    ensures c <= |xs|
    decreases |xs|
  {
    if |xs| == 0 then 0 else (if xs[0] <= m then 1 else 0) + CountAtMost(xs[1..], m)
  }

  /** How many grades are at least `m`. */
  function CountAtLeast(xs: seq<real>, m: real): (c: nat)
    ensures c <= |xs|
    decreases |xs|
  {
    if |xs| == 0 then 0 else (if xs[0] >= m then 1 else 0) + CountAtLeast(xs[1..], m)
  }

  /** Inserting `x` adds one to a count exactly when `x` itself is counted. */
  lemma {:induction false} CountsOfInsert(x: real, s: seq<real>, m: real)
    requires SortedAsc(s)
    ensures CountAtMost(InsertAsc(x, s), m) == (if x <= m then 1 else 0) + CountAtMost(s, m)
    ensures CountAtLeast(InsertAsc(x, s), m) == (if x >= m then 1 else 0) + CountAtLeast(s, m)
    decreases |s|
  {
    if |s| > 0 && x > s[0] {
      var t := InsertAsc(x, s[1..]);
      CountsOfInsert(x, s[1..], m);
      assert ([s[0]] + t)[1..] == t;
    } else {
      assert ([x] + s)[1..] == s;
    }
  }

  /** Sorting does not change how many grades lie on either side of a value. */
  lemma {:induction false} CountsOfSort(xs: seq<real>, m: real)
    ensures CountAtMost(SortAsc(xs), m) == CountAtMost(xs, m)
    ensures CountAtLeast(SortAsc(xs), m) == CountAtLeast(xs, m)
    decreases |xs|
  {
    if |xs| > 0 {
      CountsOfSort(xs[1..], m);
      CountsOfInsert(xs[0], SortAsc(xs[1..]), m);
    }
  }

  lemma {:induction false} CountAtMostPrefix(s: seq<real>, m: real, j: nat)
    requires j <= |s|
    requires forall k :: 0 <= k < j ==> s[k] <= m
    ensures CountAtMost(s, m) >= j
    decreases |s|
  {
    if j > 0 {
      CountAtMostPrefix(s[1..], m, j - 1);
    }
  }

  lemma {:induction false} CountAtLeastSuffix(s: seq<real>, m: real, i: nat)
    requires i <= |s|
    requires forall k :: i <= k < |s| ==> s[k] >= m
    ensures CountAtLeast(s, m) >= |s| - i
    decreases |s|
  {
    if |s| > 0 {
      CountAtLeastSuffix(s[1..], m, if i > 0 then i - 1 else 0);
    }
  }

  /**
   * What makes the median a median: at least half of the grades are at most
   * it, and at least half are at least it.
   */
  lemma MedianHalvesTheGrades(xs: seq<real>)
    requires |xs| > 0
    ensures 2 * CountAtMost(xs, Median(xs)) >= |xs|
    ensures 2 * CountAtLeast(xs, Median(xs)) >= |xs|
  {
    var s := SortAsc(xs);
    MiddleHalves(s);
    CountsOfSort(xs, Middle(s));
  }

  lemma MiddleHalves(s: seq<real>)
    requires |s| > 0 && SortedAsc(s)
    ensures 2 * CountAtMost(s, Middle(s)) >= |s|
    ensures 2 * CountAtLeast(s, Middle(s)) >= |s|
  {
    var n := |s|;
    var middle := (n - 1) / 2;
    MiddleIndex(n);
    var m := Middle(s);
    if n % 2 == 1 {
      assert m == s[middle];
      forall k | 0 <= k < middle + 1 ensures s[k] <= m {
        if k < middle { assert s[k] <= s[middle]; }
      }
      forall k | middle <= k < n ensures s[k] >= m {
        if k > middle { assert s[middle] <= s[k]; }
      }
      CountAtMostPrefix(s, m, middle + 1);
      CountAtLeastSuffix(s, m, middle);
    } else {
      var a, b := s[middle], s[middle + 1];
      assert m == (a + b) / 2.0;
      assert a <= b;
      forall k | 0 <= k < middle + 1 ensures s[k] <= m {
        if k < middle { assert s[k] <= a; }
      }
      forall k | middle + 1 <= k < n ensures s[k] >= m {
        if k > middle + 1 { assert b <= s[k]; }
      }
      CountAtMostPrefix(s, m, middle + 1);
      CountAtLeastSuffix(s, m, middle + 1);
    }
  }

  // ---------------------------------------------------------------------
  // The `$stdDev` closure

  /** The sum of the squared deviations of the grades from `c`. */
  function SumSquaredDeviations(xs: seq<real>, c: real): (r: real)
    ensures r >= 0.0
    decreases |xs|
  {
    if |xs| == 0 then 0.0
    else Square(xs[0] - c) + SumSquaredDeviations(xs[1..], c)
  }

  /**
   * The square of `$stdDev`: 0 for fewer than two grades; otherwise the sum of
   * the squared deviations from the mean divided by `count - 1` (the sample
   * form, with Bessel's correction).
   */
  function SampleVariance(xs: seq<real>): (v: real)
    ensures v >= 0.0
    ensures |xs| < 2 ==> v == 0.0
  {
    if |xs| < 2 then 0.0
    else SumSquaredDeviations(xs, Mean(xs)) / ((|xs| - 1) as real)
  }

  lemma {:induction false} SumSquaredDeviationsZero(xs: seq<real>, c: real)
    ensures SumSquaredDeviations(xs, c) == 0.0 <==> forall k :: 0 <= k < |xs| ==> xs[k] == c
    decreases |xs|
  {
    if |xs| > 0 {
      SumSquaredDeviationsZero(xs[1..], c);
      assert (forall k :: 0 <= k < |xs| ==> xs[k] == c) <==>
             (xs[0] == c && forall k :: 0 <= k < |xs[1..]| ==> xs[1..][k] == c);
    }
  }

  /** With two or more grades, the deviation is 0 exactly when all grades are equal. */
  lemma SampleVarianceZeroIffConstant(xs: seq<real>)
    requires |xs| >= 2
    ensures SampleVariance(xs) == 0.0 <==> forall k :: 0 <= k < |xs| ==> xs[k] == xs[0]
  {
    var n := (|xs| - 1) as real;
    var s := SumSquaredDeviations(xs, Mean(xs));
    assert SampleVariance(xs) == s / n;
    assert s / n == 0.0 <==> s == 0.0;
    SumSquaredDeviationsZero(xs, Mean(xs));
    if forall k :: 0 <= k < |xs| ==> xs[k] == xs[0] {
      MeanOfConstant(xs, xs[0]);
    }
  }

  /** The sample variance of [2, 4, 4, 4, 5, 5, 7, 9] is 32/7: a standard deviation of about 2.14. */
  lemma SampleVarianceExample()
    ensures SampleVariance([2.0, 4.0, 4.0, 4.0, 5.0, 5.0, 7.0, 9.0]) == 32.0 / 7.0
  {
    var xs := [2.0, 4.0, 4.0, 4.0, 5.0, 5.0, 7.0, 9.0];
    assert Sum(xs[7..]) == 9.0;
    assert Sum(xs[6..]) == 16.0;
    assert Sum(xs[5..]) == 21.0;
    assert Sum(xs[4..]) == 26.0;
    assert Sum(xs[3..]) == 30.0;
    assert Sum(xs[2..]) == 34.0;
    assert Sum(xs[1..]) == 38.0;
    assert Mean(xs) == 5.0;
    assert SumSquaredDeviations(xs[7..], 5.0) == 16.0;
    assert SumSquaredDeviations(xs[6..], 5.0) == 20.0;
    assert SumSquaredDeviations(xs[5..], 5.0) == 20.0;
    assert SumSquaredDeviations(xs[4..], 5.0) == 20.0;
    assert SumSquaredDeviations(xs[3..], 5.0) == 21.0;
    assert SumSquaredDeviations(xs[2..], 5.0) == 22.0;
    assert SumSquaredDeviations(xs[1..], 5.0) == 23.0;
  }
}
