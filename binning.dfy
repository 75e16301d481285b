/** The Freedman-Diaconis bin count of _freedman_diaconis_bins: bin width
    2 * IQR / n^(1/3), bin count ceil((max - min) / width), never fewer
    than ten bins.  The cube root n^(1/3) is computed by floating-point
    exponentiation in the source and is a parameter here. */
module Binning {
  import opened Samples
  import opened RealArith
  import opened DescriptiveStats

  /** Fallback and floor of the bin count. */
  const MinBins: int := 10

  /** numpy ceil: the least integer not below x. */
  function Ceil(x: real): (c: int)
    ensures x <= c as real < x + 1.0
  {
    -((-x).Floor)
  }

  /** Interquartile range, quantile 0.75 minus quantile 0.25. */
  function Iqr(s: seq<real>): real
    requires |s| > 0
  {
    Quantile(s, 0.75) - Quantile(s, 0.25)
  }

  /** Bin width 2 * IQR / n^(1/3). */
  function BinWidth(iqr: real, cubeRootN: real): real
    requires cubeRootN > 0.0
  {
    2.0 * iqr / cubeRootN
  }

  /** _freedman_diaconis_bins on a sample, with cubeRootN = len(s) ** (1/3). */
  function FreedmanDiaconisBins(s: seq<real>, cubeRootN: real): (bins: int)
    requires |s| > 0 && cubeRootN > 0.0
    ensures bins >= MinBins
  {
    BinRule(Iqr(s), Max(s) - Min(s), cubeRootN)
  }

  /** The decision structure of the rule, on the sample's IQR and range. */
  function BinRule(iqr: real, range: real, cubeRootN: real): (bins: int)
    requires cubeRootN > 0.0
    ensures bins >= MinBins
  {
    if iqr == 0.0 then MinBins
    else
      var width := BinWidth(iqr, cubeRootN);
      if width <= 0.0 then MinBins
      else BinCount(range, width)
  }

  /** max(ceil(range / width), 10). */
  function BinCount(range: real, width: real): int
    requires width > 0.0
  {
    var bins := Ceil(range / width);
    if bins > MinBins then bins else MinBins
  }

  // ---------------------------------------------------------------------
  // Lemmas

  /** The interquartile range is never negative. */
  lemma IqrNonNegative(s: seq<real>)
    requires |s| > 0
    ensures Iqr(s) >= 0.0
  {
    QuantileMonotone(s, 0.25, 0.75);
  }

  /** The width is positive for a positive IQR and zero for a zero IQR. */
  lemma WidthSign(iqr: real, cubeRootN: real)
    requires iqr >= 0.0 && cubeRootN > 0.0
    ensures iqr != 0.0 <==> BinWidth(iqr, cubeRootN) > 0.0
  {
    if iqr != 0.0 {
      DivPositive(2.0 * iqr, cubeRootN);
    }
  }

  /** Hence in exact arithmetic the second guard of the rule (width <= 0)
      never applies to a sample whose IQR is not zero. */
  lemma WidthGuardUnreachable(s: seq<real>, cubeRootN: real)
    requires |s| > 0 && cubeRootN > 0.0
    ensures Iqr(s) != 0.0 <==> BinWidth(Iqr(s), cubeRootN) > 0.0
  {
    IqrNonNegative(s);
    WidthSign(Iqr(s), cubeRootN);
  }

  /** A degenerate sample (IQR = 0) gets the fallback of ten bins. */
  lemma DegenerateSample(s: seq<real>, cubeRootN: real)
    requires |s| > 0 && cubeRootN > 0.0 && Iqr(s) == 0.0
    ensures FreedmanDiaconisBins(s, cubeRootN) == MinBins
  {
  }

  /** A constant sample is degenerate. */
  lemma ConstantSample(s: seq<real>, c: real, cubeRootN: real)
    requires |s| > 0 && cubeRootN > 0.0 && forall k :: 0 <= k < |s| ==> s[k] == c
    ensures Iqr(s) == 0.0
    ensures FreedmanDiaconisBins(s, cubeRootN) == MinBins
  {
    StatsOfConstant(s, c);
    assert ComputeDescriptiveStats(s).summary.value.q25 == c;
    assert ComputeDescriptiveStats(s).summary.value.q75 == c;
  }

  /** `bins` bins of the given width cover `range`, and are the fewest (ten
      at least) that do. */
  ghost predicate CoversRange(bins: int, width: real, range: real) {
    width > 0.0 &&
    bins >= MinBins &&
    bins as real * width >= range &&
    (bins == MinBins || (bins - 1) as real * width < range)
  }

  /** max(ceil(range / width), 10) is the least number of bins, and at
      least ten, whose total width covers the range. */
  lemma BinCountCovers(range: real, width: real)
    requires width > 0.0
    ensures CoversRange(BinCount(range, width), width, range)
  {
    var bins := BinCount(range, width);
    CoverFromQuotient(range, width, bins as real);
    if bins != MinBins {
      ShortFromQuotient(range, width, (bins - 1) as real);
    }
  }

  /** With a positive IQR the rule's count is the least number of bins, and
      at least ten, whose total width covers the range. */
  lemma BinRuleCovers(iqr: real, range: real, cubeRootN: real)
    requires iqr > 0.0 && cubeRootN > 0.0
    ensures CoversRange(BinRule(iqr, range, cubeRootN), BinWidth(iqr, cubeRootN), range)
  {
    WidthSign(iqr, cubeRootN);
    BinCountCovers(range, BinWidth(iqr, cubeRootN));
  }
}
