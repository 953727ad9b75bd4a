/** Histogram analysis and histogram-driven gray-level transformations: a
    256-bucket count of the gray levels, the probability and cumulative
    distribution derived from it, four moments and two derived statistics, and
    a look-up table that maps each level through one of five transformations. */
module Histogram {
  import opened Raster

  datatype TransformationType = Uniform | Exponential | Rayleigh | HyperbolicRoots | HyperbolicLog

  datatype HistogramStats = HistogramStats(
    mean: real, variance: real, standardDeviation: real, skewness: real, energy: real, entropy: real)

  const LEVELS: nat := 256

  /** The gray level of a pixel: its red channel times 255, truncated toward zero. */
  function GrayLevelOf(c: Color): (n: int)
    requires InUnit(c.r)
    ensures 0 <= n < LEVELS
  {
    Trunc(c.r * 255.0)
  }

  /** Every entry is a gray level in [0,255]. */
  predicate AllLevels(s: seq<int>) {
    forall k :: 0 <= k < |s| ==> 0 <= s[k] < LEVELS
  }

  // ---------------------------------------------------------------------
  // The gray levels of an image in row-major order

  /** The levels of the first n pixels of row y. */
  function RowLevels(img: array2<Color>, y: int, n: int): (s: seq<int>)
    reads img
    requires ValidImage(img) && 0 <= y < img.Length1 && 0 <= n <= img.Length0
    ensures |s| == n
    decreases n
  {
    if n == 0 then [] else RowLevels(img, y, n - 1) + [GrayLevelOf(img[n - 1, y])]
  }

  /** The levels of the first `rows` rows, row after row. */
  function Levels(img: array2<Color>, rows: int): (s: seq<int>)
    reads img
    requires ValidImage(img) && 0 <= rows <= img.Length1
    decreases rows
  {
    if rows == 0 then [] else Levels(img, rows - 1) + RowLevels(img, rows - 1, img.Length0)
  }

  lemma {:induction false} RowLevelsInRange(img: array2<Color>, y: int, n: int)
    requires ValidImage(img) && 0 <= y < img.Length1 && 0 <= n <= img.Length0
    ensures AllLevels(RowLevels(img, y, n))
  {
    if n > 0 {
      RowLevelsInRange(img, y, n - 1);
    }
  }

  /** Every entry of Levels is a gray level in [0,255]. */
  lemma {:induction false} LevelsInRange(img: array2<Color>, rows: int)
    requires ValidImage(img) && 0 <= rows <= img.Length1
    ensures AllLevels(Levels(img, rows))
  {
    if rows > 0 {
      LevelsInRange(img, rows - 1);
      RowLevelsInRange(img, rows - 1, img.Length0);
    }
  }

  // ---------------------------------------------------------------------
  // Counting

  /** The 256 bucket counts of a sequence of levels (an entry outside
      [0,255], which no image produces, is not counted). */
  function Tally(levels: seq<int>): (h: seq<int>)
    ensures |h| == LEVELS
  {
    if |levels| == 0 then seq(LEVELS, i => 0)
    else
      var h := Tally(levels[..|levels| - 1]);
      var v := levels[|levels| - 1];
      if 0 <= v < LEVELS then h[v := h[v] + 1] else h
  }

  /** The sum of the first n integers of h. */
  function CountSum(h: seq<int>, n: nat): int
    requires n <= |h|
  {
    if n == 0 then 0 else CountSum(h, n - 1) + h[n - 1]
  }

  /** The sum of the first n reals of p. */
  function PrefixSum(p: seq<real>, n: nat): real
    requires n <= |p|
  {
    if n == 0 then 0.0 else PrefixSum(p, n - 1) + p[n - 1]
  }

  /** Each bucket holds exactly the number of occurrences of its level. */
  lemma {:induction false} TallyCounts(levels: seq<int>, i: int)
    requires 0 <= i < LEVELS
    ensures Tally(levels)[i] == multiset(levels)[i]
  {
    if |levels| > 0 {
      var init := levels[..|levels| - 1];
      TallyCounts(init, i);
      assert levels == init + [levels[|levels| - 1]];
    }
  }

  /** Raising one bucket by one raises the total by one. */
  lemma {:induction false} CountSumIncrement(h: seq<int>, v: int, n: nat)
    requires 0 <= v < |h| && n <= |h|
    ensures CountSum(h[v := h[v] + 1], n) == CountSum(h, n) + (if v < n then 1 else 0)
  {
    if n > 0 {
      CountSumIncrement(h, v, n - 1);
    }
  }

  /** Buckets that are all empty add up to zero. */
  lemma {:induction false} CountSumOfEmpty(h: seq<int>, n: nat)
    requires n <= |h| && forall i :: 0 <= i < n ==> h[i] == 0
    ensures CountSum(h, n) == 0
  {
    if n > 0 {
      CountSumOfEmpty(h, n - 1);
    }
  }

  /** The bucket counts add up to the number of levels counted. */
  lemma {:induction false} TallyTotal(levels: seq<int>)
    requires AllLevels(levels)
    ensures CountSum(Tally(levels), LEVELS) == |levels|
  {
    if |levels| > 0 {
      var init := levels[..|levels| - 1];
      var v := levels[|levels| - 1];
      assert 0 <= v < LEVELS;
      TallyTotal(init);
      assert Tally(levels) == Tally(init)[v := Tally(init)[v] + 1];
      CountSumIncrement(Tally(init), v, LEVELS);
      assert CountSum(Tally(levels), LEVELS) == CountSum(Tally(init), LEVELS) + 1;
      assert |init| + 1 == |levels|;
    } else {
      CountSumOfEmpty(Tally(levels), LEVELS);
    }
  }

  /** The first `rows` rows hold rows * width levels. */
  lemma {:induction false} LevelsLength(img: array2<Color>, rows: int)
    requires ValidImage(img) && 0 <= rows <= img.Length1
    ensures |Levels(img, rows)| == rows * img.Length0
  {
    if rows > 0 {
      LevelsLength(img, rows - 1);
    }
  }

  /** The counts of an image's histogram add up to width * height. */
  lemma HistogramTotal(img: array2<Color>)
    requires ValidImage(img)
    ensures CountSum(Tally(Levels(img, img.Length1)), LEVELS) == img.Length0 * img.Length1
  {
    LevelsInRange(img, img.Length1);
    TallyTotal(Levels(img, img.Length1));
    LevelsLength(img, img.Length1);
  }

  /** Counting one more level raises its bucket by one. */
  lemma TallyAppend(s: seq<int>, v: int)
    requires 0 <= v < LEVELS
    ensures Tally(s + [v]) == Tally(s)[v := Tally(s)[v] + 1]
  {
    assert (s + [v])[..|s|] == s;
  }

  method GetHistogram(img: array2<Color>) returns (histogram: array<int>)
    requires ValidImage(img)
    ensures fresh(histogram) && histogram[..] == Tally(Levels(img, img.Length1))
  {
    histogram := new int[LEVELS](i => 0);
    assert histogram[..] == Tally([]);
    for y := 0 to img.Length1
      invariant histogram[..] == Tally(Levels(img, y))
    {
      CountRow(img, histogram, y, Levels(img, y));
    }
  }

  /** Counts the pixels of row y into the histogram, which holds the counts
      of the levels `done` before. */
  method CountRow(img: array2<Color>, histogram: array<int>, y: int, ghost done: seq<int>)
    requires ValidImage(img) && 0 <= y < img.Length1
    requires histogram[..] == Tally(done)
    modifies histogram
    ensures histogram[..] == Tally(done + RowLevels(img, y, img.Length0))
  {
    ghost var row := RowLevels(img, y, img.Length0);
    RowLevelsAt(img, y, img.Length0);
    assert done + row[..0] == done;
    for x := 0 to img.Length0
      invariant histogram[..] == Tally(done + row[..x])
    {
      var grayLevel := GrayLevelOf(img[x, y]);
      assert done + row[..x + 1] == (done + row[..x]) + [grayLevel];
      TallyAppend(done + row[..x], grayLevel);
      histogram[grayLevel] := histogram[grayLevel] + 1;
    }
    assert row[..img.Length0] == row;
  }

  /** Entry x of a row's levels is the level of pixel (x, y). */
  lemma {:induction false} RowLevelsAt(img: array2<Color>, y: int, n: int)
    requires ValidImage(img) && 0 <= y < img.Length1 && 0 <= n <= img.Length0
    ensures forall x :: 0 <= x < n ==> RowLevels(img, y, n)[x] == GrayLevelOf(img[x, y])
  {
    if n > 0 {
      RowLevelsAt(img, y, n - 1);
    }
  }

  // ---------------------------------------------------------------------
  // Probability and cumulative distribution

  /** p[i] = h[i] / total. */
  function Probability(h: seq<int>, total: int): (p: seq<real>)
    requires |h| >= LEVELS && total != 0
    ensures |p| == LEVELS
  {
    seq(LEVELS, i requires 0 <= i < LEVELS => h[i] as real / total as real)
  }

  /** cdf[i] = p[0] + ... + p[i]. */
  function Cdf(p: seq<real>): (cdf: seq<real>)
    requires |p| >= LEVELS
    ensures |cdf| == LEVELS
  {
    seq(LEVELS, i requires 0 <= i < LEVELS => PrefixSum(p, i + 1))
  }

  /** The probabilities sum to CountSum(h) / total. */
  lemma {:induction false} ProbabilityPrefix(h: seq<int>, total: int, n: nat)
    requires |h| >= LEVELS && total != 0 && n <= LEVELS
    ensures PrefixSum(Probability(h, total), n) == CountSum(h, n) as real / total as real
  {
    if n > 0 {
      ProbabilityPrefix(h, total, n - 1);
    }
  }

  /** When total is the sum of the counts, the probabilities sum to 1. */
  lemma ProbabilitySumsToOne(h: seq<int>, total: int)
    requires |h| >= LEVELS && total > 0 && total == CountSum(h, LEVELS)
    ensures PrefixSum(Probability(h, total), LEVELS) == 1.0
  {
    ProbabilityPrefix(h, total, LEVELS);
    assert total as real / total as real == 1.0;
  }

  /** Every probability is non-negative when the counts are. */
  lemma ProbabilityNonNegative(h: seq<int>, total: int)
    requires |h| >= LEVELS && total > 0
    requires forall i :: 0 <= i < |h| ==> h[i] >= 0
    ensures forall i :: 0 <= i < LEVELS ==> Probability(h, total)[i] >= 0.0
  {
  }

  /** A prefix sum of non-negative terms grows with its length. */
  lemma {:induction false} PrefixSumMonotone(p: seq<real>, i: nat, j: nat)
    requires i <= j <= |p|
    requires forall k :: 0 <= k < |p| ==> p[k] >= 0.0
    ensures PrefixSum(p, i) <= PrefixSum(p, j)
    decreases j - i
  {
    if i < j {
      PrefixSumMonotone(p, i, j - 1);
    }
  }

  /** The CDF is non-decreasing when the probabilities are non-negative, and its
      last entry is the sum of all of them. */
  lemma CdfMonotone(p: seq<real>, i: int, j: int)
    requires |p| >= LEVELS && 0 <= i <= j < LEVELS
    requires forall k :: 0 <= k < |p| ==> p[k] >= 0.0
    ensures Cdf(p)[i] <= Cdf(p)[j]
    ensures Cdf(p)[LEVELS - 1] == PrefixSum(p, LEVELS)
  {
    PrefixSumMonotone(p, i + 1, j + 1);
  }

  /** The CDF of an image's probabilities lies in [0,1] and ends at 1. */
  lemma {:induction false} CdfOfImageInUnit(p: seq<real>, i: int)
    requires |p| >= LEVELS && 0 <= i < LEVELS
    requires forall k :: 0 <= k < |p| ==> p[k] >= 0.0
    requires PrefixSum(p, LEVELS) == 1.0
    ensures InUnit(Cdf(p)[i])
  {
    PrefixSumMonotone(p, 0, i + 1);
    PrefixSumMonotone(p, i + 1, LEVELS);
  }

  method GetHistogramProbability(histogram: array<int>, totalPixels: int) returns (probability: array<real>)
    requires histogram.Length >= LEVELS && totalPixels != 0
    ensures fresh(probability) && probability[..] == Probability(histogram[..], totalPixels)
  {
    probability := new real[LEVELS];
    for i := 0 to LEVELS
      invariant forall k :: 0 <= k < i ==> probability[k] == histogram[k] as real / totalPixels as real
    {
      probability[i] := histogram[i] as real / totalPixels as real;
    }
  }

  method GetCumulativeDistribution(probability: array<real>) returns (cdf: array<real>)
    requires probability.Length >= LEVELS
    ensures fresh(cdf) && cdf[..] == Cdf(probability[..])
  {
    cdf := new real[LEVELS];
    cdf[0] := probability[0];
    for i := 1 to LEVELS
      invariant forall k :: 0 <= k < i ==> cdf[k] == PrefixSum(probability[..], k + 1)
    {
      cdf[i] := cdf[i - 1] + probability[i];
    }
  }

  // ---------------------------------------------------------------------
  // Statistics

  /** Sum of i * p[i] over i < n. */
  function MeanSum(p: seq<real>, n: nat): real
    requires n <= |p|
  {
    if n == 0 then 0.0 else MeanSum(p, n - 1) + (n - 1) as real * p[n - 1]
  }

  /** d raised to the natural power k. */
  function Pow(d: real, k: nat): real {
    if k == 0 then 1.0 else d * Pow(d, k - 1)
  }

  /** Sum of (i - mean)^k * p[i] over i < n. */
  function MomentSum(p: seq<real>, mean: real, k: nat, n: nat): real
    requires n <= |p|
  {
    if n == 0 then 0.0 else MomentSum(p, mean, k, n - 1) + Pow((n - 1) as real - mean, k) * p[n - 1]
  }

  /** Sum of p[i]^2 over i < n. */
  function EnergySum(p: seq<real>, n: nat): real
    requires n <= |p|
  {
    if n == 0 then 0.0 else EnergySum(p, n - 1) + p[n - 1] * p[n - 1]
  }

  /** Minus the sum of p[i] * log2(p[i]) over the positive p[i] with i < n. */
  function EntropySum(p: seq<real>, log: real -> real, n: nat): real
    requires n <= |p| && log(2.0) != 0.0
  {
    if n == 0 then 0.0
    else if p[n - 1] > 0.0 then EntropySum(p, log, n - 1) - p[n - 1] * (log(p[n - 1]) / log(2.0))
    else EntropySum(p, log, n - 1)
  }

  /** A probability vector: 256 non-negative entries summing to 1. */
  predicate IsDistribution(p: seq<real>) {
    |p| == LEVELS && (forall k :: 0 <= k < |p| ==> p[k] >= 0.0) && PrefixSum(p, LEVELS) == 1.0
  }

  /** The four moments and the two derived statistics; the square root and the
      natural logarithm are supplied from outside. */
  method CalculateStats(probability: array<real>, sqrt: real -> real, log: real -> real) returns (stats: HistogramStats)
    requires probability.Length >= LEVELS && log(2.0) != 0.0
    ensures stats.mean == MeanSum(probability[..], LEVELS)
    ensures stats.variance == MomentSum(probability[..], stats.mean, 2, LEVELS)
    ensures stats.standardDeviation == sqrt(stats.variance)
    ensures stats.skewness == MomentSum(probability[..], stats.mean, 3, LEVELS)
    ensures stats.energy == EnergySum(probability[..], LEVELS)
    ensures stats.entropy == EntropySum(probability[..], log, LEVELS)
  {
    var p := probability[..];
    var mean := Mean(p);
    var variance := CentralMoment(p, mean, 2);
    var skewness := CentralMoment(p, mean, 3);
    var energy := Energy(p);
    var entropy := Entropy(p, log);
    stats := HistogramStats(mean, variance, sqrt(variance), skewness, energy, entropy);
  }

  /** The mean loop of CalculateStats. */
  method Mean(p: seq<real>) returns (mean: real)
    requires |p| >= LEVELS
    ensures mean == MeanSum(p, LEVELS)
  {
    mean := 0.0;
    for i := 0 to LEVELS
      invariant mean == MeanSum(p, i)
    {
      mean := mean + i as real * p[i];
    }
  }

  /** The variance (k = 2) and skewness (k = 3) loops of CalculateStats. */
  method CentralMoment(p: seq<real>, mean: real, k: nat) returns (moment: real)
    requires |p| >= LEVELS
    ensures moment == MomentSum(p, mean, k, LEVELS)
  {
    moment := 0.0;
    for i := 0 to LEVELS
      invariant moment == MomentSum(p, mean, k, i)
    {
      moment := moment + Pow(i as real - mean, k) * p[i];
    }
  }

  /** The energy loop of CalculateStats. */
  method Energy(p: seq<real>) returns (energy: real)
    requires |p| >= LEVELS
    ensures energy == EnergySum(p, LEVELS)
  {
    energy := 0.0;
    for i := 0 to LEVELS
      invariant energy == EnergySum(p, i)
    {
      energy := energy + p[i] * p[i];
    }
  }

  /** The entropy loop of CalculateStats. */
  method Entropy(p: seq<real>, log: real -> real) returns (entropy: real)
    requires |p| >= LEVELS && log(2.0) != 0.0
    ensures entropy == EntropySum(p, log, LEVELS)
  {
    entropy := 0.0;
    for i := 0 to LEVELS
      invariant entropy == EntropySum(p, log, i)
    {
      if p[i] > 0.0 {
        entropy := entropy - p[i] * (log(p[i]) / log(2.0));
      }
    }
  }

  /** 0 <= sum of i * p[i] <= (n - 1) * sum of p[i], for non-negative p. */
  lemma {:induction false} MeanSumBounds(p: seq<real>, n: nat)
    requires n <= |p| && forall k :: 0 <= k < |p| ==> p[k] >= 0.0
    ensures 0.0 <= MeanSum(p, n) <= (if n == 0 then 0.0 else (n - 1) as real) * PrefixSum(p, n)
  {
    if n > 1 {
      MeanSumBounds(p, n - 1);
      PrefixSumMonotone(p, 0, n - 1);
      var before, sum, m, q := MeanSum(p, n - 1), PrefixSum(p, n - 1), (n - 1) as real, p[n - 1];
      assert 0.0 <= sum && 0.0 <= before <= (m - 1.0) * sum;
      assert (m - 1.0) * sum <= m * sum;
      assert 0.0 <= m * q;
      assert MeanSum(p, n) == before + m * q;
      assert m * PrefixSum(p, n) == m * sum + m * q;
    }
  }

  /** For a distribution the mean lies in [0,255]. */
  lemma MeanInRange(p: seq<real>)
    requires IsDistribution(p)
    ensures 0.0 <= MeanSum(p, LEVELS) <= 255.0
  {
    MeanSumBounds(p, LEVELS);
  }

  /** A second central moment over non-negative weights is non-negative. */
  lemma {:induction false} VarianceNonNegative(p: seq<real>, mean: real, n: nat)
    requires n <= |p| && forall k :: 0 <= k < |p| ==> p[k] >= 0.0
    ensures MomentSum(p, mean, 2, n) >= 0.0
  {
    if n > 0 {
      VarianceNonNegative(p, mean, n - 1);
      var d := (n - 1) as real - mean;
      assert Pow(d, 0) == 1.0 && Pow(d, 1) == d;
      assert Pow(d, 2) == d * d;
      assert Pow(d, 2) * p[n - 1] >= 0.0;
    }
  }

  lemma SquareInUnit(q: real)
    requires InUnit(q)
    ensures 0.0 <= q * q <= q
  {
    assert q * q <= 1.0 * q;
  }

  /** 0 <= sum of p[i]^2 <= sum of p[i] when every p[i] lies in [0,1]. */
  lemma {:induction false} EnergySumBounds(p: seq<real>, n: nat)
    requires n <= |p| && forall k :: 0 <= k < |p| ==> InUnit(p[k])
    ensures 0.0 <= EnergySum(p, n) <= PrefixSum(p, n)
  {
    if n > 0 {
      EnergySumBounds(p, n - 1);
      var q := p[n - 1];
      SquareInUnit(q);
      var energy, sum, square := EnergySum(p, n - 1), PrefixSum(p, n - 1), q * q;
      assert 0.0 <= energy <= sum && 0.0 <= square <= q;
      assert EnergySum(p, n) == energy + square;
      assert PrefixSum(p, n) == sum + q;
    }
  }

  /** For a distribution the energy lies in [0,1]. */
  lemma EnergyInUnit(p: seq<real>)
    requires IsDistribution(p)
    ensures InUnit(EnergySum(p, LEVELS))
  {
    forall k | 0 <= k < |p|
      ensures p[k] <= 1.0
    {
      PrefixSumMonotone(p, k + 1, LEVELS);
      PrefixSumMonotone(p, 0, k);
      assert PrefixSum(p, k + 1) == PrefixSum(p, k) + p[k];
    }
    EnergySumBounds(p, LEVELS);
  }

  // ---------------------------------------------------------------------
  // Look-up table

  const FMIN: real := 0.0
  const FMAX: real := 255.0

  /** The first parameter, or the default when none is given. */
  function FirstParam(params: seq<real>, default: real): real {
    if |params| > 0 then params[0] else default
  }

  /** The exponential rate: a non-positive value is replaced by 1. */
  function ExponentialAlpha(params: seq<real>): (alpha: real)
    ensures alpha > 0.0
    ensures |params| > 0 && params[0] > 0.0 ==> alpha == params[0]
  {
    var alpha := FirstParam(params, 1.0);
    if alpha <= 0.0 then 1.0 else alpha
  }

  /** The hyperbolic-root exponent: a non-positive value is replaced by 2. */
  function RootPower(params: seq<real>): (pot: real)
    ensures pot > 0.0
    ensures |params| > 0 && params[0] > 0.0 ==> pot == params[0]
  {
    var pot := FirstParam(params, 2.0);
    if pot <= 0.0 then 2.0 else pot
  }

  /** A CDF value of 1 or more is pulled just below 1, so that 1 - cdf > 0. */
  function BelowOne(cdf: real, eps: real): (c: real)
    requires 0.0 < eps
    ensures 1.0 - c > 0.0
    ensures cdf < 1.0 ==> c == cdf
  {
    if cdf >= 1.0 then 1.0 - eps else cdf
  }

  /** The unclamped new level for one CDF value; log, exp, sqrt and pow are
      supplied from outside. Every transformation sends an empty CDF to the
      lowest level (given the usual values of the functions at 0 and 1), and
      the uniform and hyperbolic-log transformations send a full CDF to the
      highest. */
  function NewValue(cdf: real, transformation: TransformationType, params: seq<real>,
                    log: real -> real, exp: real -> real, sqrt: real -> real, pow: (real, real) -> real): (r: real)
    ensures (cdf == 0.0 && log(1.0) == 0.0 && sqrt(0.0) == 0.0 && exp(0.0) == 1.0 &&
             (forall t :: t > 0.0 ==> pow(0.0, t) == 0.0)) ==> r == FMIN
    ensures cdf == 1.0 && (transformation == Uniform || transformation == HyperbolicLog) ==> r == FMAX
  {
    match transformation
    case Uniform => FMIN + (FMAX - FMIN) * cdf
    case Exponential =>
      var alpha := ExponentialAlpha(params);
      FMIN - (1.0 / alpha) * log(1.0 - BelowOne(cdf, 0.000000000001))
    case Rayleigh =>
      var alpha := FirstParam(params, 1.0);
      var ratio := 1.0 / (1.0 - BelowOne(cdf, 0.000001));
      assert cdf == 0.0 ==> ratio == 1.0;
      var lg := log(ratio);
      assert lg == 0.0 ==> 2.0 * pow(alpha, 2.0) * lg == 0.0;
      FMIN + sqrt(2.0 * pow(alpha, 2.0) * lg)
    case HyperbolicRoots =>
      var pot := RootPower(params);
      var fminPot := pow(FMIN, 1.0 / pot);
      var fmaxPot := pow(FMAX, 1.0 / pot);
      assert 1.0 / pot > 0.0;
      pow((fmaxPot - fminPot) * cdf + fminPot, pot)
    case HyperbolicLog =>
      var denom := exp(1.0) - 1.0;
      var numer := exp(cdf) - 1.0;
      FMIN + (if denom == 0.0 then cdf else numer / denom) * (FMAX - FMIN)
  }

  /** One table entry: the new value clamped to [0,255] and rounded; whatever
      the transformation, the entry is a valid gray level. */
  function LutEntry(cdf: real, transformation: TransformationType, params: seq<real>,
                    log: real -> real, exp: real -> real, sqrt: real -> real, pow: (real, real) -> real): (n: int)
    ensures 0 <= n < LEVELS
  {
    Round(Clamp(NewValue(cdf, transformation, params, log, exp, sqrt, pow), 0.0, 255.0))
  }

  method CreateLut(cdf: array<real>, transformation: TransformationType, params: seq<real>,
                   log: real -> real, exp: real -> real, sqrt: real -> real, pow: (real, real) -> real)
    returns (lut: array<int>)
    requires cdf.Length >= LEVELS
    ensures fresh(lut) && lut.Length == LEVELS
    ensures forall i :: 0 <= i < LEVELS ==> lut[i] == LutEntry(cdf[i], transformation, params, log, exp, sqrt, pow)
  {
    lut := new int[LEVELS];
    for i := 0 to LEVELS
      invariant forall k :: 0 <= k < i ==> lut[k] == LutEntry(cdf[k], transformation, params, log, exp, sqrt, pow)
    {
      var cdfI := cdf[i];
      var newVal := NewValue(cdfI, transformation, params, log, exp, sqrt, pow);
      lut[i] := Round(Clamp(newVal, 0.0, 255.0));
    }
  }

  /** The uniform table is round(255 * cdf) for CDF values in [0,1]. */
  lemma UniformLutIsRoundedCdf(cdf: real, params: seq<real>,
                               log: real -> real, exp: real -> real, sqrt: real -> real, pow: (real, real) -> real)
    requires InUnit(cdf)
    ensures LutEntry(cdf, Uniform, params, log, exp, sqrt, pow) == Round(255.0 * cdf)
  {
  }

  /** The uniform table is non-decreasing along a non-decreasing CDF. */
  lemma UniformLutMonotone(c1: real, c2: real, params: seq<real>,
                           log: real -> real, exp: real -> real, sqrt: real -> real, pow: (real, real) -> real)
    requires c1 <= c2
    ensures LutEntry(c1, Uniform, params, log, exp, sqrt, pow) <= LutEntry(c2, Uniform, params, log, exp, sqrt, pow)
  {
    var v1, v2 := Clamp(255.0 * c1, 0.0, 255.0), Clamp(255.0 * c2, 0.0, 255.0);
    assert v1 <= v2;
    RoundMonotone(v1, v2);
  }

  // ---------------------------------------------------------------------
  // Transformation of an image

  /** The CDF of an image's gray levels. */
  function ImageCdf(img: array2<Color>): (cdf: seq<real>)
    reads img
    requires ValidImage(img)
    ensures |cdf| == LEVELS
  {
    Cdf(Probability(Tally(Levels(img, img.Length1)), img.Length0 * img.Length1))
  }

  /** Each output pixel is the gray lut[level] of its input level, where the
      table is built from the image's own CDF. */
  method TransformImage(img: array2<Color>, transformation: TransformationType, params: seq<real>,
                        log: real -> real, exp: real -> real, sqrt: real -> real, pow: (real, real) -> real)
    returns (out: array2<Color>)
    requires ValidImage(img)
    ensures fresh(out) && SameSize(out, img) && ValidImage(out)
    ensures forall x, y :: 0 <= x < out.Length0 && 0 <= y < out.Length1 ==>
              out[x, y] == GrayRgb(LutEntry(ImageCdf(img)[GrayLevelOf(img[x, y])], transformation, params, log, exp, sqrt, pow))
  {
    var width, height := img.Length0, img.Length1;
    var histogram := GetHistogram(img);
    var probability := GetHistogramProbability(histogram, width * height);
    var cdf := GetCumulativeDistribution(probability);
    var lut := CreateLut(cdf, transformation, params, log, exp, sqrt, pow);
    assert cdf[..] == ImageCdf(img);
    out := ApplyLut(img, lut);
  }

  /** The final pass of the transformation: every pixel becomes the gray
      lut[level] of its own level. */
  method ApplyLut(img: array2<Color>, lut: array<int>) returns (out: array2<Color>)
    requires ValidImage(img) && lut.Length == LEVELS
    requires forall i :: 0 <= i < LEVELS ==> 0 <= lut[i] < LEVELS
    ensures fresh(out) && SameSize(out, img) && ValidImage(out)
    ensures forall x, y :: 0 <= x < out.Length0 && 0 <= y < out.Length1 ==>
              out[x, y] == GrayRgb(lut[GrayLevelOf(img[x, y])])
  {
    var width, height := img.Length0, img.Length1;
    out := new Color[width, height];
    for y := 0 to height
      invariant forall i, j :: 0 <= i < width && 0 <= j < y ==> out[i, j] == GrayRgb(lut[GrayLevelOf(img[i, j])])
    {
      for x := 0 to width
        invariant forall i, j :: 0 <= i < width && 0 <= j < y ==> out[i, j] == GrayRgb(lut[GrayLevelOf(img[i, j])])
        invariant forall i :: 0 <= i < x ==> out[i, y] == GrayRgb(lut[GrayLevelOf(img[i, y])])
      {
        var oldGray := Trunc(img[x, y].r * 255.0);
        var newGray := lut[oldGray];
        out[x, y] := GrayRgb(newGray);
      }
    }
  }
}
