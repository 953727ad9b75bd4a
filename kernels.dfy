/** The convolution kernels: Kirsch compass masks, the Frei-Chen basis, Sobel,
    the averaging (low-pass) and sharpening (high-pass) families, and the
    normalised Gaussian. A kernel is a square table of reals, row by row. */
module Kernels {
  import opened Outcomes

  type Kernel = seq<seq<real>>

  /** An n x n table. */
  predicate IsSquare(k: Kernel, n: nat) {
    |k| == n && forall i :: 0 <= i < n ==> |k[i]| == n
  }

  /** The sum of a row. */
  function RowTotal(row: seq<real>): real {
    if |row| == 0 then 0.0 else RowTotal(row[..|row| - 1]) + row[|row| - 1]
  }

  /** The sum of every entry, row after row. */
  function KernelTotal(k: Kernel): real {
    if |k| == 0 then 0.0 else KernelTotal(k[..|k| - 1]) + RowTotal(k[|k| - 1])
  }

  /** A row of three sums to its three entries. */
  lemma RowTotal3(row: seq<real>)
    requires |row| == 3
    ensures RowTotal(row) == row[0] + row[1] + row[2]
  {
    assert row[..2][..1] == row[..1];
    assert row[..1][..0] == [];
    assert RowTotal(row[..1]) == row[0];
    assert RowTotal(row[..2]) == row[0] + row[1];
    assert row[..3] == row;
  }

  /** A 3 x 3 table sums to its nine entries. */
  lemma KernelTotal3(k: Kernel)
    requires IsSquare(k, 3)
    ensures KernelTotal(k) == k[0][0] + k[0][1] + k[0][2] + k[1][0] + k[1][1] + k[1][2] + k[2][0] + k[2][1] + k[2][2]
  {
    assert k[..2][..1] == k[..1];
    assert k[..1][..0] == [];
    RowTotal3(k[0]);
    RowTotal3(k[1]);
    RowTotal3(k[2]);
    assert KernelTotal(k[..1]) == RowTotal(k[0]);
    assert KernelTotal(k[..2]) == RowTotal(k[0]) + RowTotal(k[1]);
    assert k[..3] == k;
  }

  // ---------------------------------------------------------------------
  // Kirsch compass masks

  const KIRSCH_N: Kernel := [[5.0, 5.0, 5.0], [-3.0, 0.0, -3.0], [-3.0, -3.0, -3.0]]
  const KIRSCH_NW: Kernel := [[5.0, 5.0, -3.0], [5.0, 0.0, -3.0], [-3.0, -3.0, -3.0]]
  const KIRSCH_W: Kernel := [[5.0, -3.0, -3.0], [5.0, 0.0, -3.0], [5.0, -3.0, -3.0]]
  const KIRSCH_SW: Kernel := [[-3.0, -3.0, -3.0], [5.0, 0.0, -3.0], [5.0, 5.0, -3.0]]
  const KIRSCH_S: Kernel := [[-3.0, -3.0, -3.0], [-3.0, 0.0, -3.0], [5.0, 5.0, 5.0]]
  const KIRSCH_SE: Kernel := [[-3.0, -3.0, -3.0], [-3.0, 0.0, 5.0], [-3.0, 5.0, 5.0]]
  const KIRSCH_E: Kernel := [[-3.0, -3.0, 5.0], [-3.0, 0.0, 5.0], [-3.0, -3.0, 5.0]]
  const KIRSCH_NE: Kernel := [[-3.0, 5.0, 5.0], [-3.0, 0.0, 5.0], [-3.0, -3.0, -3.0]]
  const KIRSCH_ALL: seq<Kernel> := [KIRSCH_N, KIRSCH_NW, KIRSCH_W, KIRSCH_SW, KIRSCH_S, KIRSCH_SE, KIRSCH_E, KIRSCH_NE]

  /** The eight border cells of a 3 x 3 mask, clockwise from the top-left corner. */
  function Ring(k: Kernel): seq<real>
    requires IsSquare(k, 3)
  {
    [k[0][0], k[0][1], k[0][2], k[1][2], k[2][2], k[2][1], k[2][0], k[1][0]]
  }

  /** The ring turned one cell counter-clockwise. */
  function TurnRing(r: seq<real>): seq<real>
    requires |r| == 8
  {
    r[1..] + [r[0]]
  }

  /** The eight Kirsch masks are one mask turned by 45 degrees at a time: each
      is the previous one with its border ring rotated by one cell, with a zero
      centre; each has three cells of 5 and five of -3, so every mask sums to 0. */
  lemma KirschMasksAreRotations()
    ensures |KIRSCH_ALL| == 8
    ensures forall i :: 0 <= i < 8 ==> IsSquare(KIRSCH_ALL[i], 3) && KIRSCH_ALL[i][1][1] == 0.0
    ensures forall i :: 0 <= i < 7 ==> Ring(KIRSCH_ALL[i + 1]) == TurnRing(Ring(KIRSCH_ALL[i]))
    ensures Ring(KIRSCH_ALL[0]) == TurnRing(Ring(KIRSCH_ALL[7]))
    ensures forall i :: 0 <= i < 8 ==> KernelTotal(KIRSCH_ALL[i]) == 0.0
  {
    forall i | 0 <= i < 8
      ensures KernelTotal(KIRSCH_ALL[i]) == 0.0
    {
      KernelTotal3(KIRSCH_ALL[i]);
    }
  }

  // ---------------------------------------------------------------------
  // Frei-Chen basis

  /** The double nearest to the square root of 2. */
  const S2: real := 1.4142135623730951454746218587388284504413604736328125

  const FREI_CHEN_F1: Kernel := [[1.0, S2, 1.0], [0.0, 0.0, 0.0], [-1.0, -S2, -1.0]]
  const FREI_CHEN_F2: Kernel := [[1.0, 0.0, -1.0], [S2, 0.0, -S2], [1.0, 0.0, -1.0]]
  const FREI_CHEN_F3: Kernel := [[0.0, -1.0, S2], [1.0, 0.0, -1.0], [-S2, 1.0, 0.0]]
  const FREI_CHEN_F4: Kernel := [[S2, -1.0, 0.0], [-1.0, 0.0, 1.0], [0.0, 1.0, -S2]]
  const FREI_CHEN_F5: Kernel := [[0.0, 1.0, 0.0], [-1.0, 0.0, -1.0], [0.0, 1.0, 0.0]]
  const FREI_CHEN_F6: Kernel := [[-1.0, 0.0, 1.0], [0.0, 0.0, 0.0], [1.0, 0.0, -1.0]]
  const FREI_CHEN_F7: Kernel := [[1.0, -2.0, 1.0], [-2.0, 4.0, -2.0], [1.0, -2.0, 1.0]]
  const FREI_CHEN_F8: Kernel := [[-2.0, 1.0, -2.0], [1.0, 4.0, 1.0], [-2.0, 1.0, -2.0]]
  const FREI_CHEN_F9: Kernel := [[1.0, 1.0, 1.0], [1.0, 1.0, 1.0], [1.0, 1.0, 1.0]]
  const FREI_CHEN_ALL: seq<Kernel> :=
    [FREI_CHEN_F1, FREI_CHEN_F2, FREI_CHEN_F3, FREI_CHEN_F4, FREI_CHEN_F5,
     FREI_CHEN_F6, FREI_CHEN_F7, FREI_CHEN_F8, FREI_CHEN_F9]

  /** The entry-wise product sum of two 3 x 3 masks. */
  function Dot3(a: Kernel, b: Kernel): real
    requires IsSquare(a, 3) && IsSquare(b, 3)
  {
    a[0][0] * b[0][0] + a[0][1] * b[0][1] + a[0][2] * b[0][2] +
    a[1][0] * b[1][0] + a[1][1] * b[1][1] + a[1][2] * b[1][2] +
    a[2][0] * b[2][0] + a[2][1] * b[2][1] + a[2][2] * b[2][2]
  }

  /** The four masks that carry the square root of 2, built around any value s
      in its place. */
  function FreiChenRootMasks(s: real): (ks: seq<Kernel>)
    ensures |ks| == 4 && forall i :: 0 <= i < 4 ==> IsSquare(ks[i], 3)
  {
    [[[1.0, s, 1.0], [0.0, 0.0, 0.0], [-1.0, -s, -1.0]],
     [[1.0, 0.0, -1.0], [s, 0.0, -s], [1.0, 0.0, -1.0]],
     [[0.0, -1.0, s], [1.0, 0.0, -1.0], [-s, 1.0, 0.0]],
     [[s, -1.0, 0.0], [-1.0, 0.0, 1.0], [0.0, 1.0, -s]]]
  }

  /** Those masks sum to 0 whatever value stands for the square root of 2, so
      rounding it does not unbalance them; with the rounded root they are the
      first four Frei-Chen masks. */
  lemma FreiChenRootMasksSumToZero(s: real)
    ensures forall i :: 0 <= i < 4 ==> KernelTotal(FreiChenRootMasks(s)[i]) == 0.0
    ensures FreiChenRootMasks(S2) == FREI_CHEN_ALL[..4]
  {
    var ks := FreiChenRootMasks(s);
    forall i | 0 <= i < 4
      ensures KernelTotal(ks[i]) == 0.0
    {
      KernelTotal3(ks[i]);
    }
  }

  /** The first eight Frei-Chen masks (the edge and line subspaces) are
      orthogonal to the ninth, the averaging mask: they sum to 0. */
  lemma FreiChenMasksOrthogonalToMean()
    ensures |FREI_CHEN_ALL| == 9
    ensures forall i :: 0 <= i < 9 ==> IsSquare(FREI_CHEN_ALL[i], 3)
    ensures forall i :: 0 <= i < 8 ==> Dot3(FREI_CHEN_ALL[i], FREI_CHEN_F9) == 0.0
    ensures forall i :: 0 <= i < 8 ==> KernelTotal(FREI_CHEN_ALL[i]) == 0.0
    ensures KernelTotal(FREI_CHEN_F9) == 9.0
  {
    forall i | 0 <= i < 8
      ensures KernelTotal(FREI_CHEN_ALL[i]) == 0.0
    {
      KernelTotal3(FREI_CHEN_ALL[i]);
    }
    KernelTotal3(FREI_CHEN_F9);
  }

  /** The edge masks F1..F4 are mutually orthogonal. */
  lemma FreiChenEdgeMasksOrthogonal()
    ensures Dot3(FREI_CHEN_F1, FREI_CHEN_F2) == 0.0 && Dot3(FREI_CHEN_F1, FREI_CHEN_F3) == 0.0
    ensures Dot3(FREI_CHEN_F1, FREI_CHEN_F4) == 0.0 && Dot3(FREI_CHEN_F2, FREI_CHEN_F3) == 0.0
    ensures Dot3(FREI_CHEN_F2, FREI_CHEN_F4) == 0.0 && Dot3(FREI_CHEN_F3, FREI_CHEN_F4) == 0.0
  {
  }

  /** The line masks F5..F8 are mutually orthogonal and orthogonal to the edge masks. */
  lemma FreiChenLineMasksOrthogonal()
    ensures Dot3(FREI_CHEN_F5, FREI_CHEN_F6) == 0.0 && Dot3(FREI_CHEN_F5, FREI_CHEN_F7) == 0.0
    ensures Dot3(FREI_CHEN_F5, FREI_CHEN_F8) == 0.0 && Dot3(FREI_CHEN_F6, FREI_CHEN_F7) == 0.0
    ensures Dot3(FREI_CHEN_F6, FREI_CHEN_F8) == 0.0 && Dot3(FREI_CHEN_F7, FREI_CHEN_F8) == 0.0
    ensures forall i, j :: 0 <= i < 4 <= j < 8 ==> Dot3(FREI_CHEN_ALL[i], FREI_CHEN_ALL[j]) == 0.0
  {
    forall i, j | 0 <= i < 4 <= j < 8
      ensures Dot3(FREI_CHEN_ALL[i], FREI_CHEN_ALL[j]) == 0.0
    {
      var b := FREI_CHEN_ALL[j];
      assert b == FREI_CHEN_F5 || b == FREI_CHEN_F6 || b == FREI_CHEN_F7 || b == FREI_CHEN_F8;
      if i == 0 {
        assert FREI_CHEN_ALL[i] == FREI_CHEN_F1;
      } else if i == 1 {
        assert FREI_CHEN_ALL[i] == FREI_CHEN_F2;
      } else if i == 2 {
        assert FREI_CHEN_ALL[i] == FREI_CHEN_F3;
      } else {
        assert FREI_CHEN_ALL[i] == FREI_CHEN_F4;
      }
    }
  }

  // ---------------------------------------------------------------------
  // Sobel and the sharpening masks

  const SOBEL_X: Kernel := [[-1.0, 0.0, 1.0], [-2.0, 0.0, 2.0], [-1.0, 0.0, 1.0]]
  const SOBEL_Y: Kernel := [[-1.0, -2.0, -1.0], [0.0, 0.0, 0.0], [1.0, 2.0, 1.0]]

  /** SOBEL_Y is SOBEL_X transposed, and both sum to 0, so a flat region has no
      gradient response. */
  lemma SobelPair()
    ensures IsSquare(SOBEL_X, 3) && IsSquare(SOBEL_Y, 3)
    ensures forall i, j :: 0 <= i < 3 && 0 <= j < 3 ==> SOBEL_Y[i][j] == SOBEL_X[j][i]
    ensures KernelTotal(SOBEL_X) == 0.0 && KernelTotal(SOBEL_Y) == 0.0
  {
    KernelTotal3(SOBEL_X);
    KernelTotal3(SOBEL_Y);
  }

  datatype LowPass = Mean7x7 | Mean11x11 | Mean15x15
  datatype HighPass = SharpenSoft | SharpenMedium | SharpenStrong

  const SHARPEN_SOFT: Kernel := [[-2.0, -2.0, -2.0], [-2.0, 17.0, -2.0], [-2.0, -2.0, -2.0]]
  const SHARPEN_MEDIUM: Kernel := [[-1.0, -1.0, -1.0], [-1.0, 9.0, -1.0], [-1.0, -1.0, -1.0]]
  const SHARPEN_STRONG: Kernel := [[0.0, -1.0, 0.0], [-1.0, 5.0, -1.0], [0.0, -1.0, 0.0]]

  /** The high-pass table. */
  function GetHighPassKernel(t: HighPass): Kernel {
    match t
    case SharpenSoft => SHARPEN_SOFT
    case SharpenMedium => SHARPEN_MEDIUM
    case SharpenStrong => SHARPEN_STRONG
  }

  /** Every sharpening mask is 3 x 3 and sums to 1, so it leaves flat regions
      unchanged. */
  lemma SharpeningPreservesFlat(t: HighPass)
    ensures IsSquare(GetHighPassKernel(t), 3)
    ensures KernelTotal(GetHighPassKernel(t)) == 1.0
  {
    KernelTotal3(GetHighPassKernel(t));
  }

  // ---------------------------------------------------------------------
  // Averaging kernels

  /** The side of each averaging kernel. */
  function MeanSize(t: LowPass): nat {
    match t
    case Mean7x7 => 7
    case Mean11x11 => 11
    case Mean15x15 => 15
  }

  /** The size x size table whose every entry is 1 / size^2. */
  function MeanKernel(size: nat): (k: Kernel)
    requires size > 0
    ensures IsSquare(k, size)
  {
    seq(size, i => seq(size, j => 1.0 / (size * size) as real))
  }

  /** The low-pass table, filled once from the averaging kernels. */
  function GetLowPassKernel(t: LowPass): (k: Kernel)
    ensures IsSquare(k, MeanSize(t))
  {
    MeanKernel(MeanSize(t))
  }

  /** A row of n copies of v sums to n * v. */
  lemma {:induction false} ConstantRowTotal(row: seq<real>, v: real)
    requires forall j :: 0 <= j < |row| ==> row[j] == v
    ensures RowTotal(row) == |row| as real * v
  {
    if |row| > 0 {
      ConstantRowTotal(row[..|row| - 1], v);
    }
  }

  /** Rows each summing to t add up to (number of rows) * t. */
  lemma {:induction false} EqualRowsTotal(k: Kernel, t: real)
    requires forall i :: 0 <= i < |k| ==> RowTotal(k[i]) == t
    ensures KernelTotal(k) == |k| as real * t
  {
    if |k| > 0 {
      EqualRowsTotal(k[..|k| - 1], t);
    }
  }

  /** An averaging kernel sums to 1, so it preserves mean brightness. */
  lemma MeanKernelSumsToOne(size: nat)
    requires size > 0
    ensures KernelTotal(MeanKernel(size)) == 1.0
  {
    var k := MeanKernel(size);
    var v := 1.0 / (size * size) as real;
    forall i | 0 <= i < size
      ensures RowTotal(k[i]) == size as real * v
    {
      ConstantRowTotal(k[i], v);
    }
    EqualRowsTotal(k, size as real * v);
    assert size as real * (size as real * v) == (size * size) as real * v;
  }

  /** Builds the averaging kernel; an even size is refused. */
  method CreateMeanKernel(size: int) returns (r: Result<array2<real>>)
    requires size >= 0
    ensures r.Failure? <==> size % 2 == 0
    ensures r.Success? ==> (fresh(r.value) && r.value.Length0 == size && r.value.Length1 == size &&
              forall i, j :: 0 <= i < size && 0 <= j < size ==> r.value[i, j] == MeanKernel(size)[i][j])
  {
    if size % 2 == 0 {
      return Failure("Kernel size must be odd.");
    }
    var kernel := new real[size, size];
    var value := 1.0 / (size * size) as real;
    for i := 0 to size
      invariant forall a, b :: 0 <= a < i && 0 <= b < size ==> kernel[a, b] == value
    {
      for j := 0 to size
        invariant forall a, b :: 0 <= a < i && 0 <= b < size ==> kernel[a, b] == value
        invariant forall b :: 0 <= b < j ==> kernel[i, b] == value
      {
        kernel[i, j] := value;
      }
    }
    return Success(kernel);
  }

  // ---------------------------------------------------------------------
  // Gaussian kernel

  /** The double nearest to pi. */
  const PI: real := 3.141592653589793115997963468544185161590576171875

  /** The exponential is supplied from outside; all that is assumed of it is
      that it is positive. */
  ghost predicate Positive(exp: real -> real) {
    forall t :: exp(t) > 0.0
  }

  /** The unnormalised weight at offset (dx, dy) from the centre. */
  function GaussianWeight(dx: int, dy: int, sigma: real, exp: real -> real): real
    requires sigma != 0.0
  {
    (1.0 / (2.0 * PI * sigma * sigma)) * exp((-(dx * dx + dy * dy)) as real / (2.0 * sigma * sigma))
  }

  /** The weights before normalisation: row i, column j is offset (j - half, i - half). */
  function RawGaussian(size: nat, sigma: real, exp: real -> real): (k: Kernel)
    requires sigma != 0.0
    ensures IsSquare(k, size)
  {
    seq(size, i => seq(size, j => GaussianWeight(j - size / 2, i - size / 2, sigma, exp)))
  }

  /** Every entry divided by the same non-zero total. */
  function Normalize(k: Kernel, total: real): (n: Kernel)
    requires total != 0.0
    ensures |n| == |k| && forall i :: 0 <= i < |k| ==> |n[i]| == |k[i]|
  {
    seq(|k|, i requires 0 <= i < |k| => seq(|k[i]|, j requires 0 <= j < |k[i]| => k[i][j] / total))
  }

  /** The normalised Gaussian kernel. */
  function GaussianKernel(size: nat, sigma: real, exp: real -> real): Kernel
    requires sigma != 0.0 && KernelTotal(RawGaussian(size, sigma, exp)) != 0.0
  {
    Normalize(RawGaussian(size, sigma, exp), KernelTotal(RawGaussian(size, sigma, exp)))
  }

  /** A row of positive entries has a positive sum. */
  lemma {:induction false} PositiveRowTotal(row: seq<real>)
    requires |row| > 0 && forall j :: 0 <= j < |row| ==> row[j] > 0.0
    ensures RowTotal(row) > 0.0
  {
    if |row| > 1 {
      PositiveRowTotal(row[..|row| - 1]);
    }
  }

  /** A kernel of positive entries has a positive total. */
  lemma {:induction false} PositiveKernelTotal(k: Kernel)
    requires |k| > 0 && forall i :: 0 <= i < |k| ==> |k[i]| > 0 && forall j :: 0 <= j < |k[i]| ==> k[i][j] > 0.0
    ensures KernelTotal(k) > 0.0
  {
    PositiveRowTotal(k[|k| - 1]);
    if |k| > 1 {
      PositiveKernelTotal(k[..|k| - 1]);
    }
  }

  /** With a positive exponential every weight is positive. */
  lemma GaussianWeightPositive(dx: int, dy: int, sigma: real, exp: real -> real)
    requires sigma != 0.0 && Positive(exp)
    ensures GaussianWeight(dx, dy, sigma, exp) > 0.0
  {
    var p := 2.0 * PI * sigma * sigma;
    CoefficientPositive(sigma, p);
    InversePositive(p);
    var e := exp((-(dx * dx + dy * dy)) as real / (2.0 * sigma * sigma));
    assert e > 0.0;
    ProductPositive(1.0 / p, e);
  }

  lemma ProductPositive(a: real, b: real)
    requires a > 0.0 && b > 0.0
    ensures a * b > 0.0
  {
  }

  lemma InversePositive(p: real)
    requires p > 0.0
    ensures 1.0 / p > 0.0
  {
  }

  /** The normalising factor 2 pi sigma^2 is positive for any non-zero sigma. */
  lemma CoefficientPositive(sigma: real, p: real)
    requires sigma != 0.0 && p == 2.0 * PI * sigma * sigma
    ensures p > 0.0
  {
    assert PI > 3.0;
    var a := 2.0 * PI * sigma;
    if sigma > 0.0 {
      ProductPositive(a, sigma);
      assert p == a * sigma;
    } else {
      ProductPositive(-a, -sigma);
      assert p == (-a) * (-sigma);
    }
  }

  /** The weight depends only on the squared distance from the centre. */
  lemma GaussianWeightSymmetric(dx: int, dy: int, sigma: real, exp: real -> real)
    requires sigma != 0.0
    ensures GaussianWeight(dx, dy, sigma, exp) == GaussianWeight(dy, dx, sigma, exp)
    ensures GaussianWeight(dx, dy, sigma, exp) == GaussianWeight(dx, -dy, sigma, exp)
  {
    assert dy * dy == (-dy) * (-dy);
  }

  /** With a positive exponential the raw weights have a positive total. */
  lemma RawGaussianTotalPositive(size: nat, sigma: real, exp: real -> real)
    requires size > 0 && sigma != 0.0 && Positive(exp)
    ensures KernelTotal(RawGaussian(size, sigma, exp)) > 0.0
  {
    var k := RawGaussian(size, sigma, exp);
    forall i, j | 0 <= i < size && 0 <= j < size
      ensures k[i][j] > 0.0
    {
      GaussianWeightPositive(j - size / 2, i - size / 2, sigma, exp);
    }
    PositiveKernelTotal(k);
  }

  /** Dividing every entry of a row by t divides its sum by t. */
  lemma {:induction false} RowTotalDivided(row: seq<real>, t: real)
    requires t != 0.0
    ensures RowTotal(seq(|row|, j requires 0 <= j < |row| => row[j] / t)) == RowTotal(row) / t
  {
    var d := seq(|row|, j requires 0 <= j < |row| => row[j] / t);
    if |row| > 0 {
      var init := row[..|row| - 1];
      RowTotalDivided(init, t);
      assert d[..|d| - 1] == seq(|init|, j requires 0 <= j < |init| => init[j] / t);
    }
  }

  /** Normalising by t divides the total by t. */
  lemma {:induction false} NormalizeTotal(k: Kernel, t: real)
    requires t != 0.0
    ensures KernelTotal(Normalize(k, t)) == KernelTotal(k) / t
  {
    var n := Normalize(k, t);
    if |k| > 0 {
      var init, last := k[..|k| - 1], k[|k| - 1];
      assert KernelTotal(k) == KernelTotal(init) + RowTotal(last);
      NormalizeTotal(init, t);
      assert n[..|n| - 1] == Normalize(init, t);
      RowTotalDivided(last, t);
      assert n[|n| - 1] == seq(|last|, j requires 0 <= j < |last| => last[j] / t);
      assert KernelTotal(n) == KernelTotal(init) / t + RowTotal(last) / t;
      DivideSum(KernelTotal(init), RowTotal(last), t);
    }
  }

  lemma DivideSum(a: real, b: real, t: real)
    requires t != 0.0
    ensures a / t + b / t == (a + b) / t
  {
  }

  lemma DivideBySelf(t: real)
    requires t != 0.0
    ensures t / t == 1.0
  {
  }

  /** The normalised Gaussian sums to 1. */
  lemma GaussianKernelSumsToOne(size: nat, sigma: real, exp: real -> real)
    requires sigma != 0.0 && KernelTotal(RawGaussian(size, sigma, exp)) != 0.0
    ensures KernelTotal(GaussianKernel(size, sigma, exp)) == 1.0
  {
    var t := KernelTotal(RawGaussian(size, sigma, exp));
    NormalizeTotal(RawGaussian(size, sigma, exp), t);
    DivideBySelf(t);
  }

  /** The normalised Gaussian is symmetric about both axes and the diagonal. */
  lemma GaussianKernelSymmetric(size: nat, sigma: real, exp: real -> real, i: int, j: int)
    requires size % 2 == 1 && sigma != 0.0 && KernelTotal(RawGaussian(size, sigma, exp)) != 0.0
    requires 0 <= i < size && 0 <= j < size
    ensures GaussianKernel(size, sigma, exp)[i][j] == GaussianKernel(size, sigma, exp)[j][i]
    ensures GaussianKernel(size, sigma, exp)[i][j] == GaussianKernel(size, sigma, exp)[size - 1 - i][j]
  {
    var h := size / 2;
    assert (size - 1 - i) - h == -(i - h);
    GaussianWeightSymmetric(j - h, i - h, sigma, exp);
  }

  /** Builds the normalised Gaussian of an odd size; an even size is refused.
      The exponential is supplied from outside. */
  method CreateGaussianKernel(size: int, sigma: real, exp: real -> real) returns (r: Result<array2<real>>)
    requires size >= 0 && sigma != 0.0 && Positive(exp)
    ensures r.Failure? <==> size % 2 == 0
    ensures r.Success? ==> KernelTotal(RawGaussian(size, sigma, exp)) > 0.0
    ensures r.Success? ==> (fresh(r.value) && r.value.Length0 == size && r.value.Length1 == size &&
              forall i, j :: 0 <= i < size && 0 <= j < size ==> r.value[i, j] == GaussianKernel(size, sigma, exp)[i][j])
  {
    if size % 2 == 0 {
      return Failure("Kernel size must be odd.");
    }
    var kernel, sum := GaussianWeights(size, sigma, exp);
    RawGaussianTotalPositive(size, sigma, exp);
    DivideAll(kernel, sum);
    return Success(kernel);
  }

  /** The first pass: fills in the raw weights, row y + half and column
      x + half for offsets x, y in [-half, half], and adds them up. */
  method GaussianWeights(size: nat, sigma: real, exp: real -> real) returns (kernel: array2<real>, sum: real)
    requires sigma != 0.0
    ensures fresh(kernel) && kernel.Length0 == size && kernel.Length1 == size
    ensures forall a, b :: 0 <= a < size && 0 <= b < size ==> kernel[a, b] == RawGaussian(size, sigma, exp)[a][b]
    ensures sum == KernelTotal(RawGaussian(size, sigma, exp))
  {
    ghost var raw := RawGaussian(size, sigma, exp);
    kernel := new real[size, size];
    sum := 0.0;
    for row := 0 to size
      invariant sum == KernelTotal(raw[..row])
      invariant forall a, b :: 0 <= a < row && 0 <= b < size ==> kernel[a, b] == raw[a][b]
    {
      sum := GaussianRow(kernel, row, sigma, exp, sum);
      assert raw[..row + 1][..row] == raw[..row];
    }
    assert raw[..size] == raw;
  }

  /** One row of the first pass: writes the weights of row `row` and adds
      them to the running sum. */
  method GaussianRow(kernel: array2<real>, row: nat, sigma: real, exp: real -> real, sum0: real) returns (sum: real)
    requires sigma != 0.0 && kernel.Length0 == kernel.Length1 && row < kernel.Length0
    modifies kernel
    ensures sum == sum0 + RowTotal(RawGaussian(kernel.Length0, sigma, exp)[row])
    ensures forall a, b :: 0 <= a < kernel.Length0 && 0 <= b < kernel.Length1 ==>
              kernel[a, b] == if a == row then RawGaussian(kernel.Length0, sigma, exp)[a][b] else old(kernel[a, b])
  {
    var size := kernel.Length0;
    ghost var weights := RawGaussian(size, sigma, exp)[row];
    var half := size / 2;
    var y := row - half;
    sum := sum0;
    for col := 0 to size
      invariant sum == sum0 + RowTotal(weights[..col])
      invariant forall a, b :: 0 <= a < size && 0 <= b < size ==>
                  kernel[a, b] == if a == row && b < col then weights[b] else old(kernel[a, b])
    {
      var x := col - half;
      var value := GaussianWeight(x, y, sigma, exp);
      assert weights[..col + 1][..col] == weights[..col];
      kernel[row, col] := value;
      sum := sum + value;
    }
    assert weights[..size] == weights;
  }

  /** The second pass: divides every entry by the total. */
  method DivideAll(kernel: array2<real>, sum: real)
    requires sum != 0.0
    modifies kernel
    ensures forall a, b :: 0 <= a < kernel.Length0 && 0 <= b < kernel.Length1 ==> kernel[a, b] == old(kernel[a, b]) / sum
  {
    for i := 0 to kernel.Length0
      invariant forall a, b :: 0 <= a < i && 0 <= b < kernel.Length1 ==> kernel[a, b] == old(kernel[a, b]) / sum
      invariant forall a, b :: i <= a < kernel.Length0 && 0 <= b < kernel.Length1 ==> kernel[a, b] == old(kernel[a, b])
    {
      for j := 0 to kernel.Length1
        invariant forall a, b :: 0 <= a < i && 0 <= b < kernel.Length1 ==> kernel[a, b] == old(kernel[a, b]) / sum
        invariant forall a, b :: i < a < kernel.Length0 && 0 <= b < kernel.Length1 ==> kernel[a, b] == old(kernel[a, b])
        invariant forall b :: 0 <= b < j ==> kernel[i, b] == old(kernel[i, b]) / sum
        invariant forall b :: j <= b < kernel.Length1 ==> kernel[i, b] == old(kernel[i, b])
      {
        kernel[i, j] := kernel[i, j] / sum;
      }
    }
  }
}
