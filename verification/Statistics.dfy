/** The analyser's statistics over the reals: percentiles, the distribution of a sample, and the t table. */
module Statistics {
  import opened Prelude

  predicate Sorted(v: seq<real>) {
    forall i, j :: 0 <= i <= j < |v| ==> v[i] <= v[j]
  }

  // ---------------------------------------------------------------- percentile

  function Ceiling(x: real): int {
    if x.Floor as real == x then x.Floor else x.Floor + 1
  }

  function Blend(a: real, b: real, weight: real): real {
    a * (1.0 - weight) + b * weight
  }

  /** Linear interpolation at a position between 0 and the last index. */
  function Interpolate(v: seq<real>, position: real): real
    requires 0.0 <= position <= (|v| - 1) as real
  {
    var lower, upper := position.Floor, Ceiling(position);
    if lower == upper then v[lower]
    else
      var weight := position - lower as real;
      Blend(v[lower], v[upper], weight)
  }

  lemma Scale(x: real, y: real, factor: real)
    requires x <= y && 0.0 <= factor
    ensures x * factor <= y * factor
  {
    assert 0.0 <= (y - x) * factor;
  }

  lemma PositionInRange(n: nat, fraction: real)
    requires n > 0 && 0.0 <= fraction <= 1.0
    ensures 0.0 <= fraction * (n - 1) as real <= (n - 1) as real
  {
  }

  /** The fractional index of a percentile in a sample of `n` values. */
  function Position(n: nat, fraction: real): (position: real)
    requires n > 0 && 0.0 <= fraction <= 1.0
    ensures 0.0 <= position <= (n - 1) as real
  {
    PositionInRange(n, fraction);
    fraction * (n - 1) as real
  }

  /** `percentile`; no value for an empty sample. A fraction outside [0, 1] would index outside the list. */
  function Percentile(v: seq<real>, fraction: real): Option<real>
    requires 0.0 <= fraction <= 1.0
  {
    if v == [] then None
    else if |v| == 1 then Some(v[0])
    else Some(Interpolate(v, Position(|v|, fraction)))
  }

  lemma BlendForm(a: real, b: real, weight: real)
    ensures Blend(a, b, weight) == a + weight * (b - a)
  {
  }

  lemma BlendIsMonotone(a: real, b: real, weight: real, weight': real)
    requires a <= b && weight <= weight'
    ensures Blend(a, b, weight) <= Blend(a, b, weight')
  {
    hide Blend;
    BlendForm(a, b, weight);
    BlendForm(a, b, weight');
    Scale(weight, weight', b - a);
  }

  lemma BlendIsBetween(a: real, b: real, weight: real)
    requires a <= b && 0.0 <= weight <= 1.0
    ensures a <= Blend(a, b, weight) <= b
  {
    BlendIsMonotone(a, b, 0.0, weight);
    BlendIsMonotone(a, b, weight, 1.0);
    hide Blend;
    BlendForm(a, b, 0.0);
    BlendForm(a, b, 1.0);
  }

  /** The interpolated value lies between its two neighbours. */
  lemma InterpolateBetween(v: seq<real>, position: real)
    requires Sorted(v) && 0.0 <= position <= (|v| - 1) as real
    ensures v[position.Floor] <= Interpolate(v, position) <= v[Ceiling(position)]
  {
    hide Blend;
    var lower, upper := position.Floor, Ceiling(position);
    if lower != upper {
      BlendIsBetween(v[lower], v[upper], position - lower as real);
    }
  }

  lemma InterpolateMonotone(v: seq<real>, p: real, q: real)
    requires Sorted(v) && 0.0 <= p <= q <= (|v| - 1) as real
    ensures Interpolate(v, p) <= Interpolate(v, q)
  {
    hide Blend;
    InterpolateBetween(v, p);
    InterpolateBetween(v, q);
    if p.Floor < q.Floor {
      assert Ceiling(p) <= q.Floor;
    } else if p.Floor as real < p {
      var lower := p.Floor;
      BlendIsMonotone(v[lower], v[lower + 1], p - lower as real, q - lower as real);
    }
  }

  lemma PositionMonotone(n: nat, f: real, g: real)
    requires n > 0 && 0.0 <= f <= g <= 1.0
    ensures Position(n, f) <= Position(n, g)
  {
    Scale(f, g, (n - 1) as real);
  }

  /** Percentiles of a sorted sample never decrease as the fraction grows. */
  lemma PercentileMonotone(v: seq<real>, f: real, g: real)
    requires Sorted(v) && v != [] && 0.0 <= f <= g <= 1.0
    ensures Percentile(v, f).value <= Percentile(v, g).value
  {
    hide Position, Interpolate;
    PositionMonotone(|v|, f, g);
    InterpolateMonotone(v, Position(|v|, f), Position(|v|, g));
  }

  /** Where the position is a whole number the percentile is that order statistic. */
  lemma PercentileHitsOrderStatistics(v: seq<real>, f: real, k: nat)
    requires 0.0 <= f <= 1.0 && k < |v| && Position(|v|, f) == k as real
    ensures Percentile(v, f) == Some(v[k])
  {
    hide Position, Blend;
    assert Position(|v|, f).Floor == k;
  }

  /** Between two order statistics the percentile moves on a straight line. */
  lemma PercentileIsLinear(v: seq<real>, f: real, k: nat, w: real)
    requires 0.0 <= f <= 1.0 && k + 1 < |v| && 0.0 <= w <= 1.0 && f * (|v| - 1) as real == k as real + w
    ensures Percentile(v, f) == Some(v[k] + w * (v[k + 1] - v[k]))
  {
    assert Position(|v|, f) == k as real + w;
    hide Position, Blend, Interpolate;
    InterpolateOnTheLine(v, k, w);
  }

  lemma InterpolateOnTheLine(v: seq<real>, k: nat, w: real)
    requires k + 1 < |v| && 0.0 <= w <= 1.0
    ensures Interpolate(v, k as real + w) == v[k] + w * (v[k + 1] - v[k])
  {
    hide Blend;
    var position := k as real + w;
    if 0.0 < w < 1.0 {
      assert position.Floor == k && Ceiling(position) == k + 1 && position - k as real == w;
      BlendForm(v[k], v[k + 1], w);
    } else if w == 0.0 {
      assert position.Floor == k;
    } else {
      assert position.Floor == k + 1;
    }
  }

  /** A percentile separates the sample at its position. */
  lemma PercentileSeparates(v: seq<real>, f: real)
    requires Sorted(v) && v != [] && 0.0 <= f <= 1.0
    ensures var p := Percentile(v, f).value;
            && (forall i :: 0 <= i < |v| && i as real <= Position(|v|, f) ==> v[i] <= p)
            && (forall i :: 0 <= i < |v| && Position(|v|, f) <= i as real ==> p <= v[i])
  {
    hide Position, Interpolate;
    var position := Position(|v|, f);
    InterpolateBetween(v, position);
    forall i | 0 <= i < |v| && i as real <= position ensures v[i] <= v[position.Floor] {
      assert i <= position.Floor;
    }
    forall i | 0 <= i < |v| && position <= i as real ensures v[Ceiling(position)] <= v[i] {
      assert Ceiling(position) <= i;
    }
  }

  /** Every percentile lies between the extremes, and 0 and 1 attain them. */
  lemma PercentileWithinRange(v: seq<real>, f: real)
    requires Sorted(v) && v != [] && 0.0 <= f <= 1.0
    ensures v[0] <= Percentile(v, f).value <= v[|v| - 1]
    ensures Percentile(v, 0.0) == Some(v[0]) && Percentile(v, 1.0) == Some(v[|v| - 1])
  {
    PositionOfExtremes(|v|);
    hide Position, Percentile;
    PercentileHitsOrderStatistics(v, 0.0, 0);
    PercentileHitsOrderStatistics(v, 1.0, |v| - 1);
    PercentileMonotone(v, 0.0, f);
    PercentileMonotone(v, f, 1.0);
  }

  lemma PositionOfExtremes(n: nat)
    requires n > 0
    ensures Position(n, 0.0) == 0.0 && Position(n, 1.0) == (n - 1) as real
  {
  }

  /** `statistics.median` of a sorted sample. */
  function Median(v: seq<real>): real
    requires v != []
  {
    if |v| % 2 == 1 then v[|v| / 2] else (v[|v| / 2 - 1] + v[|v| / 2]) / 2.0
  }

  lemma MiddlePosition(n: nat)
    requires n > 0
    ensures n % 2 == 1 ==> Position(n, 0.5) == (n / 2) as real
    ensures n % 2 == 0 ==> Position(n, 0.5) == (n / 2 - 1) as real + 0.5
  {
    assert n == 2 * (n / 2) + n % 2;
  }

  /** The 50th percentile is the median, for every sample size of either parity. */
  lemma MedianIsP50(v: seq<real>)
    requires v != []
    ensures Percentile(v, 0.5) == Some(Median(v))
  {
    hide Position, Blend;
    MiddlePosition(|v|);
    var h := |v| / 2;
    if |v| % 2 == 1 {
      PercentileHitsOrderStatistics(v, 0.5, h);
    } else {
      var position := Position(|v|, 0.5);
      assert position.Floor == h - 1 && Ceiling(position) == h;
      assert position - (h - 1) as real == 0.5;
      Halfway(v[h - 1], v[h]);
    }
  }

  lemma Halfway(a: real, b: real)
    ensures Blend(a, b, 0.5) == (a + b) / 2.0
  {
  }

  // ---------------------------------------------------------------- distribution of a sample

  function Insert(v: seq<real>, x: real): (r: seq<real>)
    ensures multiset(r) == multiset(v) + multiset{x}
  {
    if v == [] then [x]
    else if x <= v[0] then [x] + v
    else
      assert v == [v[0]] + v[1..];
      [v[0]] + Insert(v[1..], x)
  }

  lemma SortedCons(x: real, v: seq<real>)
    requires Sorted(v) && (v != [] ==> x <= v[0])
    ensures Sorted([x] + v)
  {
    forall i, j | 0 <= i <= j < |v| + 1 ensures ([x] + v)[i] <= ([x] + v)[j] {
      if i == 0 && j > 0 {
        assert x <= v[0] <= v[j - 1];
      }
    }
  }

  lemma SortedTail(v: seq<real>)
    requires Sorted(v) && v != []
    ensures Sorted(v[1..]) && multiset(v) == multiset{v[0]} + multiset(v[1..])
    ensures forall x :: x in v ==> v[0] <= x
    ensures |v| > 1 ==> v[0] <= v[1]
  {
    assert v == [v[0]] + v[1..];
  }

  lemma {:induction false} InsertKeepsSorted(v: seq<real>, x: real)
    requires Sorted(v)
    ensures Sorted(Insert(v, x))
    ensures Insert(v, x) != [] && Insert(v, x)[0] == if v == [] || x <= v[0] then x else v[0]
  {
    if v == [] {
    } else if x <= v[0] {
      SortedCons(x, v);
    } else {
      hide Sorted;
      SortedTail(v);
      InsertKeepsSorted(v[1..], x);
      SortedCons(v[0], Insert(v[1..], x));
    }
  }

  /** `sorted`. */
  function Sort(values: seq<real>): (r: seq<real>)
    ensures multiset(r) == multiset(values)
    ensures |r| == |values|
  {
    if values == [] then []
    else
      assert values == values[..|values| - 1] + [values[|values| - 1]];
      var r := Insert(Sort(values[..|values| - 1]), values[|values| - 1]);
      assert |multiset(r)| == |multiset(values)|;
      r
  }

  lemma {:induction false} SortIsSorted(values: seq<real>)
    ensures Sorted(Sort(values))
  {
    if values == [] {
    } else {
      SortIsSorted(values[..|values| - 1]);
      InsertKeepsSorted(Sort(values[..|values| - 1]), values[|values| - 1]);
    }
  }

  /** A sample has only one sorted arrangement. */
  lemma {:induction false} SortedUnique(a: seq<real>, b: seq<real>)
    requires Sorted(a) && Sorted(b) && multiset(a) == multiset(b)
    ensures a == b
  {
    if a == [] {
      assert |multiset(b)| == 0;
    } else {
      assert |multiset(a)| == |multiset(b)|;
      SameHead(a, b);
      SameTail(a, b);
      SortedUnique(a[1..], b[1..]);
      assert a == [a[0]] + a[1..] && b == [b[0]] + b[1..];
    }
  }

  lemma SameHead(a: seq<real>, b: seq<real>)
    requires Sorted(a) && Sorted(b) && multiset(a) == multiset(b) && a != [] && b != []
    ensures a[0] == b[0]
  {
    hide Sorted;
    SortedTail(a);
    SortedTail(b);
    assert a[0] in multiset(b) && b[0] in multiset(a);
  }

  lemma SameTail(a: seq<real>, b: seq<real>)
    requires multiset(a) == multiset(b) && a != [] && b != [] && a[0] == b[0]
    ensures multiset(a[1..]) == multiset(b[1..])
  {
    assert a == [a[0]] + a[1..] && b == [b[0]] + b[1..];
    assert multiset(a[1..]) == multiset(a) - multiset{a[0]};
    assert multiset(b[1..]) == multiset(b) - multiset{b[0]};
  }

  function Total(v: seq<real>): real {
    if v == [] then 0.0 else v[0] + Total(v[1..])
  }

  /** The sum of the squared distances from `mean`. */
  function SquaredDistances(v: seq<real>, mean: real): real {
    if v == [] then 0.0 else (v[0] - mean) * (v[0] - mean) + SquaredDistances(v[1..], mean)
  }

  function Mean(v: seq<real>): real
    requires v != []
  {
    Total(v) / |v| as real
  }

  /** `statistics.stdev` squared. */
  function Variance(v: seq<real>): real
    requires |v| >= 2
  {
    SquaredDistances(v, Mean(v)) / (|v| - 1) as real
  }

  /** The square of `margin`: the interval is the mean plus and minus its root. */
  function MarginSquared(v: seq<real>): real
    requires |v| >= 2
  {
    var t := FirstAtLeast(T95, |v| - 1);
    t * t * (Variance(v) / |v| as real)
  }

  /** Deviation and margin are kept as their squares, and only for samples of at least two values. */
  datatype Spread = Spread(variance: real, marginSquared: real)

  datatype Summary = Summary(mean: real, median: real, minimum: real, maximum: real,
                             p50: real, p90: real, p95: real, p99: real, spread: Option<Spread>)

  datatype Distribution = Distribution(count: nat, summary: Option<Summary>)

  /** `Distribution.of`, with the deviation and the margin of the interval as their squares. */
  function DistributionOf(values: seq<real>): Distribution {
    var data := Sort(values);
    if data == [] then Distribution(0, None)
    else
      Distribution(|data|, Some(Summary(Mean(data), Median(data), data[0], data[|data| - 1],
        Percentile(data, 0.50).value, Percentile(data, 0.90).value,
        Percentile(data, 0.95).value, Percentile(data, 0.99).value,
        if |data| >= 2 then Some(Spread(Variance(data), MarginSquared(data))) else None)))
  }

  /** The order in which the values arrive does not matter. */
  lemma DistributionIgnoresOrder(values: seq<real>, values': seq<real>)
    requires multiset(values) == multiset(values')
    ensures DistributionOf(values) == DistributionOf(values')
  {
    SortIsSorted(values);
    SortIsSorted(values');
    SortedUnique(Sort(values), Sort(values'));
  }

  /** Which percentiles are reported, seen on the samples where they are order statistics. */
  lemma ReportedPercentiles(values: seq<real>, k: nat)
    requires |values| == 100 * k + 1
    ensures var data, d := Sort(values), DistributionOf(values);
            && |data| == |values| && d.summary.Some?
            && var s := d.summary.value;
               s.p50 == data[50 * k] && s.p90 == data[90 * k] && s.p95 == data[95 * k] && s.p99 == data[99 * k]
  {
    SortIsSorted(values);
    var data := Sort(values);
    assert |data| == |values| by {
      assert |data| == |multiset(data)| && |values| == |multiset(values)|;
    }
    HundredthsOf(k);
    hide Sort, Mean, Median, Variance, MarginSquared, Percentile, Position;
    PercentileHitsOrderStatistics(data, 0.50, 50 * k);
    PercentileHitsOrderStatistics(data, 0.90, 90 * k);
    PercentileHitsOrderStatistics(data, 0.95, 95 * k);
    PercentileHitsOrderStatistics(data, 0.99, 99 * k);
  }

  lemma HundredthsOf(k: nat)
    ensures Position(100 * k + 1, 0.50) == (50 * k) as real && Position(100 * k + 1, 0.90) == (90 * k) as real
    ensures Position(100 * k + 1, 0.95) == (95 * k) as real && Position(100 * k + 1, 0.99) == (99 * k) as real
  {
  }

  // ---------------------------------------------------------------- mean and variance

  function SumOfSquares(v: seq<real>): real {
    if v == [] then 0.0 else v[0] * v[0] + SumOfSquares(v[1..])
  }

  function Square(x: real): real {
    x * x
  }

  /** The squared distances of `n` values from `m`, by their sum and the sum of their squares. */
  function Expanded(n: real, m: real, total: real, squares: real): real {
    squares - 2.0 * (m * total) + n * (m * m)
  }

  lemma SquareOfDifference(x: real, m: real)
    ensures Square(x - m) == x * x - 2.0 * (m * x) + m * m
  {
  }

  lemma {:induction false} DistancesExpanded(v: seq<real>, m: real)
    ensures SquaredDistances(v, m) == Expanded(|v| as real, m, Total(v), SumOfSquares(v))
  {
    if v == [] {
    } else {
      var rest := v[1..];
      DistancesExpanded(rest, m);
      hide Expanded;
      OneMoreDistance(v[0], m, |rest| as real, Total(rest), SumOfSquares(rest));
    }
  }

  lemma OneMoreDistance(x: real, m: real, n: real, total: real, squares: real)
    ensures (x - m) * (x - m) + Expanded(n, m, total, squares) == Expanded(n + 1.0, m, x + total, x * x + squares)
  {
    SquareOfDifference(x, m);
    assert m * (x + total) == m * x + m * total;
    assert (n + 1.0) * (m * m) == n * (m * m) + m * m;
  }

  /** The mean spreads the sum evenly. */
  lemma MeanTimesCount(v: seq<real>)
    requires v != []
    ensures Mean(v) * |v| as real == Total(v)
  {
  }

  /** The mean is the one point from which the squared distances are smallest; any other adds its own distance. */
  lemma MeanIsTheCentre(v: seq<real>, x: real)
    requires v != []
    ensures SquaredDistances(v, x) == SquaredDistances(v, Mean(v)) + |v| as real * Square(x - Mean(v))
  {
    hide *;
    DistancesExpanded(v, x);
    DistancesExpanded(v, Mean(v));
    ExpandedAroundTheMean(v, x);
  }

  lemma ExpandedAroundTheMean(v: seq<real>, x: real)
    requires v != []
    ensures Expanded(|v| as real, x, Total(v), SumOfSquares(v))
            == Expanded(|v| as real, Mean(v), Total(v), SumOfSquares(v)) + |v| as real * Square(x - Mean(v))
  {
    hide *;
    MeanTimesCount(v);
    AroundTheMean(|v| as real, Mean(v), x, Total(v), SumOfSquares(v));
  }

  lemma AroundTheMean(n: real, m: real, x: real, total: real, squares: real)
    requires m * n == total
    ensures Expanded(n, x, total, squares) == Expanded(n, m, total, squares) + n * Square(x - m)
  {
    SquareOfDifference(x, m);
    assert n * Square(x - m) == n * (x * x) - 2.0 * (n * (m * x)) + n * (m * m);
    assert x * total == n * (m * x) && m * total == n * (m * m);
  }

  /** The sample variance, with its divisor, by sums alone. */
  lemma VarianceBySums(v: seq<real>)
    requires |v| >= 2
    ensures Variance(v) * (|v| - 1) as real * |v| as real == |v| as real * SumOfSquares(v) - Square(Total(v))
  {
    hide *;
    VarianceTimes(v);
    DistancesBySums(v);
  }

  lemma DistancesBySums(v: seq<real>)
    requires v != []
    ensures SquaredDistances(v, Mean(v)) * |v| as real == |v| as real * SumOfSquares(v) - Square(Total(v))
  {
    hide *;
    DistancesExpanded(v, Mean(v));
    assert Mean(v) * |v| as real == Total(v) by {
      MeanTimesCount(v);
    }
    ByTheMean(|v| as real, Mean(v), Total(v), SumOfSquares(v));
  }

  lemma VarianceTimes(v: seq<real>)
    requires |v| >= 2
    ensures Variance(v) * (|v| - 1) as real == SquaredDistances(v, Mean(v))
  {
    hide Mean, SquaredDistances;
    Cancels(SquaredDistances(v, Mean(v)), (|v| - 1) as real);
  }

  lemma Cancels(x: real, n: real)
    requires n != 0.0
    ensures x / n * n == x
  {
  }

  lemma ByTheMean(n: real, m: real, total: real, squares: real)
    requires m * n == total
    ensures Expanded(n, m, total, squares) * n == n * squares - Square(total)
  {
    assert n * (m * m) == m * total by {
      assert n * (m * m) == m * (m * n);
    }
    assert Expanded(n, m, total, squares) == squares - m * total;
    assert (m * total) * n == (m * n) * total;
  }

  /** The margin is t * s / sqrt(n), stated on the squares. */
  lemma MarginIsOfTheMean(v: seq<real>)
    requires |v| >= 2
    ensures MarginSquared(v) * |v| as real == Square(FirstAtLeast(T95, |v| - 1)) * Variance(v)
  {
    hide Variance, FirstAtLeast;
    ScaledQuotient(Square(FirstAtLeast(T95, |v| - 1)), Variance(v), |v| as real);
  }

  lemma ScaledQuotient(x: real, y: real, n: real)
    requires n != 0.0
    ensures x * (y / n) * n == x * y
  {
    Cancels(y, n);
    assert x * (y / n) * n == x * (y / n * n);
  }

  lemma {:induction false} TotalBounds(v: seq<real>, low: real, high: real)
    requires forall i :: 0 <= i < |v| ==> low <= v[i] <= high
    ensures low * |v| as real <= Total(v) <= high * |v| as real
  {
    if v == [] {
    } else {
      TotalBounds(v[1..], low, high);
      var n := |v| - 1;
      assert low * (n + 1) as real == low * n as real + low;
      assert high * (n + 1) as real == high * n as real + high;
    }
  }

  lemma QuotientBounds(total: real, n: real, low: real, high: real)
    requires n > 0.0 && low * n <= total <= high * n
    ensures low <= total / n <= high
  {
    assert low == low * n / n && high == high * n / n;
  }

  lemma SquareIsPositive(x: real)
    ensures x * x >= 0.0 && (x * x == 0.0 <==> x == 0.0)
  {
    if x > 0.0 {
      ProductSign(x, x);
    } else if x < 0.0 {
      ProductSign(-x, -x);
      assert x * x == (-x) * (-x);
    }
  }

  lemma {:induction false} DistancesVanish(v: seq<real>, mean: real)
    ensures SquaredDistances(v, mean) >= 0.0
    ensures SquaredDistances(v, mean) == 0.0 <==> forall i :: 0 <= i < |v| ==> v[i] == mean
  {
    if v == [] {
    } else {
      DistancesVanish(v[1..], mean);
      SquareIsPositive(v[0] - mean);
      assert v == [v[0]] + v[1..];
    }
  }

  lemma MeanInRange(v: seq<real>)
    requires Sorted(v) && v != []
    ensures v[0] <= Mean(v) <= v[|v| - 1]
  {
    TotalBounds(v, v[0], v[|v| - 1]);
    QuotientBounds(Total(v), |v| as real, v[0], v[|v| - 1]);
  }

  lemma QuotientSign(x: real, n: real)
    requires x >= 0.0 && n > 0.0
    ensures x / n >= 0.0 && (x / n == 0.0 <==> x == 0.0)
  {
  }

  lemma ProductSign(x: real, y: real)
    requires x > 0.0 && y >= 0.0
    ensures x * y >= 0.0 && (x * y == 0.0 <==> y == 0.0)
  {
  }

  /** The spread is never negative, and there is none exactly when all values are the same. */
  lemma SpreadVanishesExactlyWhen(v: seq<real>)
    requires Sorted(v) && |v| >= 2
    ensures Variance(v) >= 0.0 && MarginSquared(v) >= 0.0
    ensures Variance(v) == 0.0 <==> v[0] == v[|v| - 1]
    ensures MarginSquared(v) == 0.0 <==> v[0] == v[|v| - 1]
  {
    hide Mean, SquaredDistances, FirstAtLeast;
    MeanInRange(v);
    DistancesVanish(v, Mean(v));
    QuotientSign(SquaredDistances(v, Mean(v)), (|v| - 1) as real);
    QuotientSign(Variance(v), |v| as real);
    CriticalValuesDescend(|v| - 1, |v| - 1);
    var t := FirstAtLeast(T95, |v| - 1);
    ProductSign(t, t);
    ProductSign(t * t, Variance(v) / |v| as real);
    if v[0] == v[|v| - 1] {
      assert forall i :: 0 <= i < |v| ==> v[i] == Mean(v);
    }
  }

  /** What a reported distribution always satisfies: its figures are ordered and every value lies in its range. */
  lemma DistributionIsOrdered(values: seq<real>)
    requires values != []
    ensures var d := DistributionOf(values);
            && d.count == |values| && d.summary.Some?
            && var s := d.summary.value;
               && s.minimum <= s.p50 == s.median <= s.p90 <= s.p95 <= s.p99 <= s.maximum
               && s.minimum <= s.mean <= s.maximum
               && s.minimum in values && s.maximum in values
               && (forall x :: x in values ==> s.minimum <= x <= s.maximum)
               && (s.spread.Some? <==> |values| >= 2)
               && (s.spread.Some? ==> s.spread.value.variance >= 0.0 && s.spread.value.marginSquared >= 0.0
                                      && (s.spread.value.variance == 0.0 <==> s.minimum == s.maximum)
                                      && (s.spread.value.marginSquared == 0.0 <==> s.minimum == s.maximum))
  {
    hide Percentile, Median, Mean, Sort, Variance, MarginSquared;
    var data := Sort(values);
    SortIsSorted(values);
    MedianIsP50(data);
    PercentileMonotone(data, 0.50, 0.90);
    PercentileMonotone(data, 0.90, 0.95);
    PercentileMonotone(data, 0.95, 0.99);
    PercentileWithinRange(data, 0.50);
    PercentileWithinRange(data, 0.99);
    MeanInRange(data);
    if |data| >= 2 {
      SpreadVanishesExactlyWhen(data);
    }
    assert data[0] in multiset(values) && data[|data| - 1] in multiset(values);
    forall x | x in values ensures data[0] <= x <= data[|data| - 1] {
      assert x in multiset(data);
    }
  }

  // ---------------------------------------------------------------- Student's t

  datatype Row = Row(degrees: nat, critical: real)

  const FIRST_ROWS: seq<Row> := [
    Row(1, 12.706), Row(2, 4.303), Row(3, 3.182), Row(4, 2.776), Row(5, 2.571), Row(6, 2.447), Row(7, 2.365)]

  const SECOND_ROWS: seq<Row> := [
    Row(8, 2.306), Row(9, 2.262), Row(10, 2.228), Row(11, 2.201), Row(12, 2.179), Row(13, 2.160), Row(14, 2.145)]

  const THIRD_ROWS: seq<Row> := [
    Row(15, 2.131), Row(16, 2.120), Row(17, 2.110), Row(18, 2.101), Row(19, 2.093), Row(20, 2.086)]

  const LAST_ROWS: seq<Row> := [
    Row(25, 2.060), Row(30, 2.042), Row(40, 2.021), Row(60, 2.000), Row(120, 1.980)]

  /** Critical values at 95% confidence, by degrees of freedom. */
  const T95: seq<Row> := FIRST_ROWS + SECOND_ROWS + THIRD_ROWS + LAST_ROWS

  const NORMAL: real := 1.960

  /** The rows are in order of degrees, their values fall, and none is as low as the normal value. */
  predicate Descending(table: seq<Row>) {
    && (forall i :: 0 <= i < |table| ==> NORMAL < table[i].critical)
    && (forall i :: 0 < i < |table| ==> table[i - 1].degrees < table[i].degrees
                                        && table[i].critical < table[i - 1].critical)
  }

  lemma FirstRowsDescend()
    ensures Descending(FIRST_ROWS) && |FIRST_ROWS| == 7 && FIRST_ROWS[6] == Row(7, 2.365)
  {
  }

  lemma SecondRowsDescend()
    ensures Descending(SECOND_ROWS) && |SECOND_ROWS| == 7
    ensures SECOND_ROWS[0] == Row(8, 2.306) && SECOND_ROWS[6] == Row(14, 2.145)
  {
  }

  lemma ThirdRowsDescend()
    ensures Descending(THIRD_ROWS) && |THIRD_ROWS| == 6
    ensures THIRD_ROWS[0] == Row(15, 2.131) && THIRD_ROWS[5] == Row(20, 2.086)
  {
  }

  lemma LastRowsDescend()
    ensures Descending(LAST_ROWS) && |LAST_ROWS| == 5 && LAST_ROWS[0] == Row(25, 2.060)
  {
  }

  lemma TableDescends()
    ensures Descending(T95)
  {
    hide Descending, FIRST_ROWS, SECOND_ROWS, THIRD_ROWS, LAST_ROWS;
    FirstRowsDescend();
    SecondRowsDescend();
    ThirdRowsDescend();
    LastRowsDescend();
    DescendingConcat(FIRST_ROWS, SECOND_ROWS);
    DescendingConcat(FIRST_ROWS + SECOND_ROWS, THIRD_ROWS);
    DescendingConcat(FIRST_ROWS + SECOND_ROWS + THIRD_ROWS, LAST_ROWS);
  }

  lemma DescendingConcat(a: seq<Row>, b: seq<Row>)
    requires Descending(a) && Descending(b) && a != [] && b != []
    requires a[|a| - 1].degrees < b[0].degrees && b[0].critical < a[|a| - 1].critical
    ensures Descending(a + b)
  {
  }

  /** The value of the first row with at least `df` degrees, and the normal value past the last row. */
  function FirstAtLeast(table: seq<Row>, df: int): real {
    if table == [] then NORMAL
    else if df <= table[0].degrees then table[0].critical
    else FirstAtLeast(table[1..], df)
  }

  lemma {:induction false} FirstAtLeastMeaning(table: seq<Row>, df: int, k: nat)
    requires k <= |table| && (forall i :: 0 <= i < k ==> table[i].degrees < df)
    requires k < |table| ==> df <= table[k].degrees
    ensures FirstAtLeast(table, df) == if k < |table| then table[k].critical else NORMAL
  {
    if k == 0 {
    } else {
      FirstAtLeastMeaning(table[1..], df, k - 1);
    }
  }

  lemma {:induction false} DegreesIncrease(table: seq<Row>, i: nat, j: nat)
    requires Descending(table) && i < j < |table|
    ensures table[i].degrees < table[j].degrees
  {
    if i + 1 == j {
    } else {
      DegreesIncrease(table, i, j - 1);
    }
  }

  /** `t_critical_95`: the table lookup, then the search; no value below one degree of freedom. */
  method TCritical95(df: int) returns (r: Option<real>)
    ensures r == if df < 1 then None else Some(FirstAtLeast(T95, df))
  {
    if df < 1 {
      return None;
    }
    TableDescends();
    hide T95;
    if hit :| 0 <= hit < |T95| && T95[hit].degrees == df {
      forall k | 0 <= k < hit ensures T95[k].degrees < df {
        DegreesIncrease(T95, k, hit);
      }
      FirstAtLeastMeaning(T95, df, hit);
      return Some(T95[hit].critical);
    }
    var i: nat := 0;
    while i < |T95|
      invariant i <= |T95|
      invariant forall k :: 0 <= k < i ==> T95[k].degrees < df
    {
      if df <= T95[i].degrees {
        FirstAtLeastMeaning(T95, df, i);
        return Some(T95[i].critical);
      }
      i := i + 1;
    }
    FirstAtLeastMeaning(T95, df, i);
    r := Some(NORMAL);
  }

  lemma {:induction false} FirstAtLeastDescends(table: seq<Row>, df: int, df': int)
    requires Descending(table) && df <= df'
    ensures NORMAL <= FirstAtLeast(table, df') <= FirstAtLeast(table, df)
    ensures table != [] ==> FirstAtLeast(table, df) <= table[0].critical
  {
    if table == [] {
    } else {
      assert Descending(table[1..]);
      FirstAtLeastDescends(table[1..], df, df');
    }
  }

  /** More degrees of freedom never widen the interval, and it never gets narrower than the normal one. */
  lemma CriticalValuesDescend(df: int, df': int)
    requires 1 <= df <= df'
    ensures NORMAL <= FirstAtLeast(T95, df') <= FirstAtLeast(T95, df)
  {
    TableDescends();
    FirstAtLeastDescends(T95, df, df');
  }

  /**
    The first terms of the expansion of the critical value in powers of 1/n (Abramowitz and Stegun, section 26.7.5),
    with their coefficients at the normal value 1.959964.
    */
  function Expansion(n: real): real
    requires n > 0.0
  {
    1.959964 + (2.372271 + (2.822499 + (2.555850 + 1.589534 / n) / n) / n) / n
  }

  predicate Near(x: real, y: real, tolerance: real) {
    -tolerance < x - y < tolerance
  }

  predicate FollowsExpansion(table: seq<Row>, tolerance: real) {
    forall i :: 0 <= i < |table| ==>
      table[i].degrees > 0 && Near(table[i].critical, Expansion(table[i].degrees as real), tolerance)
  }

  lemma EarlyRowsFollow()
    ensures FollowsExpansion(FIRST_ROWS[3..], 0.001)
  {
    assert FIRST_ROWS[3..] == [Row(4, 2.776), Row(5, 2.571), Row(6, 2.447), Row(7, 2.365)];
  }

  lemma LaterRowsFollow()
    ensures FollowsExpansion(SECOND_ROWS, 0.001) && FollowsExpansion(THIRD_ROWS, 0.001)
    ensures FollowsExpansion(LAST_ROWS, 0.001)
  {
  }

  /** The series of the tangent up to the fifth power. */
  function Tangent(x: real): real {
    x + x * x * x / 3.0 + 2.0 * (x * x * x * x * x) / 15.0
  }

  /**
    The table's numbers against independent ones: from 4 degrees on each row is within 0.001 of the expansion, at 3
    within 0.004; at 2 the value solves t^2 (1 - 0.95^2) = 2 * 0.95^2 and at 1 it is the cotangent of 0.025 pi.
    */
  lemma TableIsStudents()
    ensures forall i :: 3 <= i < |T95| ==>
              T95[i].degrees >= 4 && Near(T95[i].critical, Expansion(T95[i].degrees as real), 0.001)
    ensures T95[2].degrees == 3 && Near(T95[2].critical, Expansion(3.0), 0.004)
    ensures T95[1].degrees == 2 && Near(T95[1].critical * T95[1].critical * 0.0975, 1.805, 0.001)
    ensures T95[0].degrees == 1 && Near(T95[0].critical * Tangent(0.0785398), 1.0, 0.0001)
  {
    assert T95[..3] == [Row(1, 12.706), Row(2, 4.303), Row(3, 3.182)];
    assert T95[0] == T95[..3][0] && T95[1] == T95[..3][1] && T95[2] == T95[..3][2];
    EarlyRowsFollow();
    LaterRowsFollow();
    TableDescends();
    hide Expansion;
    var rest := FIRST_ROWS[3..] + SECOND_ROWS + THIRD_ROWS + LAST_ROWS;
    assert T95[3..] == rest;
    hide T95, FIRST_ROWS, SECOND_ROWS, THIRD_ROWS, LAST_ROWS, Near;
    forall i | 3 <= i < |T95|
      ensures T95[i].degrees >= 4 && Near(T95[i].critical, Expansion(T95[i].degrees as real), 0.001)
    {
      assert T95[i] == rest[i - 3];
      DegreesIncrease(T95, 2, i);
    }
  }

  // ---------------------------------------------------------------- where the table is too narrow

  predicate IsRow(table: seq<Row>, df: int) {
    exists i :: 0 <= i < |table| && table[i].degrees == df
  }

  /** The value of the last row with at most `df` degrees: what the table itself vouches for at `df`. */
  function LastAtMost(table: seq<Row>, df: int): real
    requires table != [] && table[0].degrees <= df
  {
    if table[|table| - 1].degrees <= df then table[|table| - 1].critical else LastAtMost(table[..|table| - 1], df)
  }

  lemma {:induction false} LastAtMostMeaning(table: seq<Row>, df: int, k: nat)
    requires k < |table| && table[0].degrees <= df && table[k].degrees <= df
    requires forall i :: k < i < |table| ==> df < table[i].degrees
    ensures LastAtMost(table, df) == table[k].critical
  {
    if k == |table| - 1 {
    } else {
      LastAtMostMeaning(table[..|table| - 1], df, k);
    }
  }

  /** The first row with at least `df` degrees, or the end of the table. */
  lemma FirstRow(table: seq<Row>, df: int) returns (k: nat)
    requires Descending(table)
    ensures k <= |table| && (forall i :: 0 <= i < k ==> table[i].degrees < df)
    ensures (k < |table| ==> df <= table[k].degrees) && forall i :: k < i < |table| ==> df < table[i].degrees
    ensures IsRow(table, df) <==> k < |table| && table[k].degrees == df
  {
    k := 0;
    while k < |table| && table[k].degrees < df
      invariant k <= |table| && forall i :: 0 <= i < k ==> table[i].degrees < df
    {
      k := k + 1;
    }
    forall i | k < i < |table| ensures table[k].degrees < table[i].degrees {
      DegreesIncrease(table, k, i);
    }
  }

  lemma TooNarrowBetweenRowsOf(table: seq<Row>, df: int)
    requires Descending(table) && table != [] && table[0].degrees <= df
    ensures FirstAtLeast(table, df) <= LastAtMost(table, df)
    ensures FirstAtLeast(table, df) == LastAtMost(table, df) <==> IsRow(table, df)
  {
    hide FirstAtLeast, LastAtMost, IsRow;
    var k := FirstRow(table, df);
    FirstAtLeastMeaning(table, df, k);
    if k < |table| && table[k].degrees == df {
      LastAtMostMeaning(table, df, k);
    } else {
      LastAtMostMeaning(table, df, k - 1);
    }
  }

  /**
    The value used is never above the one the table gives for fewer degrees, and is as large exactly at the rows. So
    between two rows, and past the last, the interval is narrower than the table vouches for.
    */
  lemma TooNarrowExactlyBetweenRows(df: int)
    requires df >= 1
    ensures T95 != [] && T95[0].degrees == 1
    ensures FirstAtLeast(T95, df) <= LastAtMost(T95, df)
    ensures FirstAtLeast(T95, df) == LastAtMost(T95, df) <==> IsRow(T95, df)
  {
    hide IsRow, FirstAtLeast, LastAtMost;
    TableDescends();
    assert T95[0] == FIRST_ROWS[0];
    TooNarrowBetweenRowsOf(T95, df);
  }

  /** `t` falls as the degrees grow, as critical values do, and the table is right at its rows. */
  ghost predicate IsCritical(t: int -> real) {
    && (forall a, b :: 1 <= a < b ==> t(b) < t(a))
    && (forall i :: 0 <= i < |T95| ==> t(T95[i].degrees) == T95[i].critical)
  }

  /** Up to the last row the value used falls short of the critical value, whatever that is, exactly between rows. */
  lemma FallsShortExactlyBetweenRows(t: int -> real, df: int)
    requires IsCritical(t) && 1 <= df <= 120
    ensures FirstAtLeast(T95, df) <= t(df)
    ensures FirstAtLeast(T95, df) == t(df) <==> IsRow(T95, df)
  {
    TableDescends();
    assert T95[|T95| - 1] == LAST_ROWS[4];
    hide T95, IsRow, FirstAtLeast;
    var k := FirstRow(T95, df);
    FirstAtLeastMeaning(T95, df, k);
    assert t(T95[k].degrees) == T95[k].critical;
  }

  /** With 21 degrees of freedom, which have no row, the value used is that of 25 and below that of 20. */
  lemma TooNarrowAt21()
    ensures FirstAtLeast(T95, 21) == 2.060 && T95[19] == Row(20, 2.086) && !IsRow(T95, 21)
  {
    TableDescends();
    assert T95[19] == THIRD_ROWS[5] && T95[20] == LAST_ROWS[0];
    hide FirstAtLeast, T95;
    forall i | 0 <= i < 20 ensures T95[i].degrees < 21 {
      if i < 19 {
        DegreesIncrease(T95, i, 19);
      }
    }
    forall i | 20 < i < |T95| ensures T95[i].degrees > 21 {
      DegreesIncrease(T95, 20, i);
    }
    FirstAtLeastMeaning(T95, 21, 20);
  }
}
