/** The exactly computable part of compute_descriptive_stats: the sample
    size, minimum, maximum, arithmetic mean, median and the 25 % and 75 %
    quantiles of a pandas Series, over exact reals. */
module DescriptiveStats {
  import opened Samples
  import opened RealArith

  /** pandas' default ("linear") quantile on an ascending sample x at the
      fractional index pos: the neighbours at floor(pos) and ceil(pos),
      weighted by the fractional part of pos. */
  function Interpolate(x: seq<real>, pos: real): real
    requires |x| > 0 && 0.0 <= pos <= (|x| - 1) as real
  {
    var lo := pos.Floor;
    var hi := if lo as real == pos then lo else lo + 1;
    Lerp(x[lo], x[hi], pos - lo as real)
  }

  /** The point at fraction f of the way from a to b. */
  function Lerp(a: real, b: real, f: real): real {
    a + (b - a) * f
  }

  /** The fractional index (n - 1) * q of quantile q in a sample of size n. */
  function Position(n: nat, q: real): (pos: real)
    requires n > 0 && 0.0 <= q <= 1.0
    ensures 0.0 <= pos <= (n - 1) as real
  {
    MulNonneg((n - 1) as real, q);
    MulMonotone((n - 1) as real, q, 1.0);
    (n - 1) as real * q
  }

  /** Series.quantile(q): interpolation at index (n - 1) * q of the sorted sample. */
  function Quantile(s: seq<real>, q: real): real
    requires |s| > 0 && 0.0 <= q <= 1.0
  {
    var x := Sort(s);
    Interpolate(x, Position(|x|, q))
  }

  /** Series.median(): the middle element of the sorted sample, or the mean
      of the two middle elements when the size is even. */
  function Median(s: seq<real>): real
    requires |s| > 0
  {
    var x := Sort(s);
    var n := |x|;
    if n % 2 == 1 then x[n / 2] else (x[n / 2 - 1] + x[n / 2]) / 2.0
  }

  /** Series.mean(). */
  function Mean(s: seq<real>): real
    requires |s| > 0
  {
    Sum(s) / |s| as real
  }

  datatype Summary = Summary(min: real, max: real, mean: real, median: real, q25: real, q75: real)

  /** The statistics record: for an empty sample pandas reports n = 0 and
      NaN for every other entry, modelled as a missing summary. */
  datatype Stats = Stats(n: nat, summary: Option<Summary>)

  function ComputeDescriptiveStats(s: seq<real>): (r: Stats)
    ensures r.n == |s|
    ensures r.summary.Some? <==> |s| > 0
  {
    if |s| == 0 then Stats(0, None)
    else Stats(|s|, Some(Summary(Min(s), Max(s), Mean(s), Median(s), Quantile(s, 0.25), Quantile(s, 0.75))))
  }

  // ---------------------------------------------------------------------
  // Lemmas

  lemma LerpBetween(a: real, b: real, f: real)
    requires a <= b && 0.0 <= f <= 1.0
    ensures a <= Lerp(a, b, f) <= b
  {
    MulNonneg(b - a, f);
    MulMonotone(b - a, f, 1.0);
  }

  lemma LerpMonotone(a: real, b: real, f: real, f': real)
    requires a <= b && f <= f'
    ensures Lerp(a, b, f) <= Lerp(a, b, f')
  {
    MulMonotone(b - a, f, f');
  }

  lemma PositionMonotone(n: nat, q: real, q': real)
    requires n > 0 && 0.0 <= q <= q' <= 1.0
    ensures Position(n, q) <= Position(n, q')
  {
    MulMonotone((n - 1) as real, q, q');
  }

  /** The interpolated value lies between its two neighbours, hence between
      the first and the last element of the sorted sample. */
  lemma InterpolateBetween(x: seq<real>, pos: real)
    requires IsSorted(x) && |x| > 0 && 0.0 <= pos <= (|x| - 1) as real
    ensures var lo := pos.Floor; var hi := if lo as real == pos then lo else lo + 1;
      x[lo] <= Interpolate(x, pos) <= x[hi]
    ensures x[0] <= Interpolate(x, pos) <= x[|x| - 1]
  {
    var lo := pos.Floor;
    var hi := if lo as real == pos then lo else lo + 1;
    LerpBetween(x[lo], x[hi], pos - lo as real);
    assert x[0] <= x[lo] && x[hi] <= x[|x| - 1];
  }

  /** Interpolation is monotone in the fractional index. */
  lemma InterpolateMonotone(x: seq<real>, p: real, p': real)
    requires IsSorted(x) && |x| > 0 && 0.0 <= p <= p' <= (|x| - 1) as real
    ensures Interpolate(x, p) <= Interpolate(x, p')
  {
    InterpolateBetween(x, p);
    InterpolateBetween(x, p');
    var lo, lo' := p.Floor, p'.Floor;
    if lo == lo' && lo as real != p {
      LerpMonotone(x[lo], x[lo + 1], p - lo as real, p' - lo as real);
    } else if lo < lo' {
      var hi := if lo as real == p then lo else lo + 1;
      assert x[hi] <= x[lo'];
    }
  }

  /** A larger q never gives a smaller quantile. */
  lemma QuantileMonotone(s: seq<real>, q: real, q': real)
    requires |s| > 0 && 0.0 <= q <= q' <= 1.0
    ensures Quantile(s, q) <= Quantile(s, q')
  {
    PositionMonotone(|s|, q, q');
    InterpolateMonotone(Sort(s), Position(|s|, q), Position(|s|, q'));
  }

  /** At a whole index k the interpolation is the k-th order statistic. */
  lemma InterpolateAtIndex(x: seq<real>, k: nat)
    requires k < |x|
    ensures Interpolate(x, k as real) == x[k]
  {
    assert (k as real).Floor == k;
  }

  /** Halfway between two indices it is the mean of the two neighbours. */
  lemma InterpolateAtHalf(x: seq<real>, k: nat)
    requires 0 < k < |x|
    ensures Interpolate(x, k as real - 0.5) == (x[k - 1] + x[k]) / 2.0
  {
    var pos := k as real - 0.5;
    assert (k - 1) as real <= pos < k as real;
    assert pos.Floor == k - 1;
  }

  /** Quantile 0 is the minimum and quantile 1 the maximum. */
  lemma QuantileEnds(s: seq<real>)
    requires |s| > 0
    ensures Quantile(s, 0.0) == Min(s)
    ensures Quantile(s, 1.0) == Max(s)
  {
    var x := Sort(s);
    assert Quantile(s, 0.0) == x[0] by {
      assert Position(|x|, 0.0) == 0 as real;
      InterpolateAtIndex(x, 0);
    }
    assert Quantile(s, 1.0) == x[|x| - 1] by {
      assert Position(|x|, 1.0) == (|x| - 1) as real;
      InterpolateAtIndex(x, |x| - 1);
    }
    SortedEnds(s);
  }

  /** Every quantile lies between the minimum and the maximum. */
  lemma QuantileBounds(s: seq<real>, q: real)
    requires |s| > 0 && 0.0 <= q <= 1.0
    ensures Min(s) <= Quantile(s, q) <= Max(s)
  {
    QuantileEnds(s);
    QuantileMonotone(s, 0.0, q);
    QuantileMonotone(s, q, 1.0);
  }

  /** The median is the quantile at one half. */
  lemma MedianIsHalfQuantile(s: seq<real>)
    requires |s| > 0
    ensures Median(s) == Quantile(s, 0.5)
  {
    var x := Sort(s);
    var n := |x|;
    var k := n / 2;
    if n % 2 == 1 {
      assert Position(n, 0.5) == k as real;
      InterpolateAtIndex(x, k);
    } else {
      assert Position(n, 0.5) == k as real - 0.5;
      InterpolateAtHalf(x, k);
    }
  }

  lemma MeanOfBoundedSum(s: seq<real>, lo: real, hi: real)
    requires |s| > 0 && |s| as real * lo <= Sum(s) <= |s| as real * hi
    ensures lo <= Mean(s) <= hi
  {
    DivBounds(Sum(s), |s| as real, lo, hi);
  }

  /** The mean lies between the minimum and the maximum. */
  lemma MeanBounds(s: seq<real>)
    requires |s| > 0
    ensures Min(s) <= Mean(s) <= Max(s)
  {
    var lo, hi := Min(s), Max(s);
    SumBounds(s, lo, hi);
    MeanOfBoundedSum(s, lo, hi);
  }

  /** For a non-empty sample the record reports
      min <= q25 <= median <= q75 <= max and min <= mean <= max. */
  lemma StatsOrdered(s: seq<real>)
    requires |s| > 0
    ensures var r := ComputeDescriptiveStats(s).summary.value;
      r.min <= r.q25 <= r.median <= r.q75 <= r.max && r.min <= r.mean <= r.max
  {
    MedianIsHalfQuantile(s);
    QuantileBounds(s, 0.25);
    QuantileBounds(s, 0.75);
    QuantileMonotone(s, 0.25, 0.5);
    QuantileMonotone(s, 0.5, 0.75);
    MeanBounds(s);
  }

  /** A constant sample has every statistic equal to its value. */
  lemma StatsOfConstant(s: seq<real>, c: real)
    requires |s| > 0 && forall k :: 0 <= k < |s| ==> s[k] == c
    ensures ComputeDescriptiveStats(s) == Stats(|s|, Some(Summary(c, c, c, c, c, c)))
  {
    assert Min(s) == c && Max(s) == c by {
      assert Min(s) in s && Max(s) in s;
    }
    MeanOfConstant(s, c);
    assert Quantile(s, 0.25) == c by {
      QuantileBounds(s, 0.25);
    }
    assert Quantile(s, 0.75) == c by {
      QuantileBounds(s, 0.75);
    }
    assert Median(s) == c by {
      MedianIsHalfQuantile(s);
      QuantileBounds(s, 0.5);
    }
  }

  lemma MeanOfConstant(s: seq<real>, c: real)
    requires |s| > 0 && forall k :: 0 <= k < |s| ==> s[k] == c
    ensures Mean(s) == c
  {
    SumConstant(s, c);
    DivBounds(Sum(s), |s| as real, c, c);
  }

  /** Example: the sample 5, 0, 7 has mean 4, minimum 0, maximum 7,
      median 5 and quartiles 2.5 and 6. */
  lemma Example()
    ensures ComputeDescriptiveStats([5.0, 0.0, 7.0]) == Stats(3, Some(Summary(0.0, 7.0, 4.0, 5.0, 2.5, 6.0)))
  {
    ExampleMinMax();
    ExampleMean();
    ExampleMedian();
    ExampleQuartiles();
  }

  lemma ExampleMinMax()
    ensures Min([5.0, 0.0, 7.0]) == 0.0 && Max([5.0, 0.0, 7.0]) == 7.0
  {
    ExampleSorted();
    SortedEnds([5.0, 0.0, 7.0]);
  }

  lemma ExampleMean()
    ensures Mean([5.0, 0.0, 7.0]) == 4.0
  {
    assert Sum([5.0, 0.0, 7.0]) == 12.0;
  }

  lemma ExampleMedian()
    ensures Median([5.0, 0.0, 7.0]) == 5.0
  {
    ExampleSorted();
  }

  lemma ExampleQuartiles()
    ensures Quantile([5.0, 0.0, 7.0], 0.25) == 2.5 && Quantile([5.0, 0.0, 7.0], 0.75) == 6.0
  {
    ExampleSorted();
    QuartilesOfThree([5.0, 0.0, 7.0], 0.0, 5.0, 7.0);
  }

  /** The quartiles of three values are the midpoints of their neighbours. */
  lemma QuartilesOfThree(s: seq<real>, a: real, b: real, c: real)
    requires Sort(s) == [a, b, c]
    ensures Quantile(s, 0.25) == (a + b) / 2.0 && Quantile(s, 0.75) == (b + c) / 2.0
  {
    var x := Sort(s);
    assert Position(3, 0.25) == 1 as real - 0.5;
    InterpolateAtHalf(x, 1);
    assert Position(3, 0.75) == 2 as real - 0.5;
    InterpolateAtHalf(x, 2);
  }

  lemma ExampleSorted()
    ensures Sort([5.0, 0.0, 7.0]) == [0.0, 5.0, 7.0]
  {
    assert multiset([5.0, 0.0, 7.0]) == multiset{5.0, 0.0, 7.0};
    assert multiset([0.0, 5.0, 7.0]) == multiset{0.0, 5.0, 7.0};
    assert IsSorted([0.0, 5.0, 7.0]);
    SortIsUnique([5.0, 0.0, 7.0], [0.0, 5.0, 7.0]);
  }
}
