/** Spatial convolution of the grayscale image with a square kernel (indices
    clamped at the borders, the sum clamped to [0,1]), the low- and high-pass
    filters built on it, and the Canny edge detector: Gaussian blur, Sobel
    gradients, non-maximum suppression, double threshold and one pass of
    hysteresis. */
module Convolution {
  import opened Raster
  import opened ImageProcessing
  import opened Kernels
  import opened Outcomes

  /** A kernel whose rows are at least as long as it has rows: every
      kernel[ky][kx] with kx < |kernel| exists. */
  predicate WellFormed(k: Kernel) {
    forall i :: 0 <= i < |k| ==> |k[i]| >= |k|
  }

  /** The value convolution reads: the red channel of the grayscale pixel,
      which is the average of the three colour channels. */
  function Luma(c: Color): real {
    (c.r + c.g + c.b) / 3.0
  }

  lemma LumaInUnit(c: Color)
    requires ValidColor(c)
    ensures InUnit(Luma(c)) && Luma(c) == GrayscalePixel(c).r
  {
  }

  /** One product of the sum at (x, y): the pixel under kernel cell (ky, kx),
      its coordinates clamped into the image, times the cell. */
  function Tap(img: array2<Color>, k: Kernel, x: int, y: int, ky: int, kx: int): real
    reads img
    requires 0 <= x < img.Length0 && 0 <= y < img.Length1
    requires WellFormed(k) && 0 <= ky < |k| && 0 <= kx < |k|
  {
    var half := |k| / 2;
    var pixelX := ClampIndex(x + (kx - half), 0, img.Length0 - 1);
    var pixelY := ClampIndex(y + (ky - half), 0, img.Length1 - 1);
    Luma(img[pixelX, pixelY]) * k[ky][kx]
  }

  /** The products of kernel row ky, columns < n. */
  function RowResponse(img: array2<Color>, k: Kernel, x: int, y: int, ky: int, n: nat): real
    reads img
    requires 0 <= x < img.Length0 && 0 <= y < img.Length1
    requires WellFormed(k) && 0 <= ky < |k| && n <= |k|
  {
    if n == 0 then 0.0 else RowResponse(img, k, x, y, ky, n - 1) + Tap(img, k, x, y, ky, n - 1)
  }

  /** The sum over kernel rows < m, row after row. */
  function Response(img: array2<Color>, k: Kernel, x: int, y: int, m: nat): real
    reads img
    requires 0 <= x < img.Length0 && 0 <= y < img.Length1
    requires WellFormed(k) && m <= |k|
  {
    if m == 0 then 0.0 else Response(img, k, x, y, m - 1) + RowResponse(img, k, x, y, m - 1, |k|)
  }

  /** The output pixel: an opaque gray of the clamped sum. */
  function ConvolvedPixel(img: array2<Color>, k: Kernel, x: int, y: int): (c: Color)
    reads img
    requires 0 <= x < img.Length0 && 0 <= y < img.Length1 && WellFormed(k)
    ensures ValidColor(c) && c.a == 1.0
  {
    GrayColor(Clamp01(Response(img, k, x, y, |k|)))
  }

  /** The weighted sum at one output pixel, read from the grayscale copy. */
  method ConvolveAt(grayImage: array2<Color>, img: array2<Color>, k: Kernel, x: int, y: int) returns (sum: real)
    requires SameSize(grayImage, img) && 0 <= x < img.Length0 && 0 <= y < img.Length1 && WellFormed(k)
    requires forall i, j :: 0 <= i < img.Length0 && 0 <= j < img.Length1 ==> grayImage[i, j] == GrayscalePixel(img[i, j])
    ensures sum == Response(img, k, x, y, |k|)
  {
    sum := 0.0;
    for ky := 0 to |k|
      invariant sum == Response(img, k, x, y, ky)
    {
      sum := AccumulateRow(grayImage, img, k, x, y, ky, sum);
    }
  }

  /** Adds the products of kernel row ky to the running sum. */
  method AccumulateRow(grayImage: array2<Color>, img: array2<Color>, k: Kernel, x: int, y: int, ky: int, sum0: real)
    returns (sum: real)
    requires SameSize(grayImage, img) && 0 <= x < img.Length0 && 0 <= y < img.Length1
    requires WellFormed(k) && 0 <= ky < |k|
    requires forall i, j :: 0 <= i < img.Length0 && 0 <= j < img.Length1 ==> grayImage[i, j] == GrayscalePixel(img[i, j])
    ensures sum == sum0 + RowResponse(img, k, x, y, ky, |k|)
  {
    var width, height := grayImage.Length0, grayImage.Length1;
    var kernelHalf := |k| / 2;
    sum := sum0;
    for kx := 0 to |k|
      invariant sum == sum0 + RowResponse(img, k, x, y, ky, kx)
    {
      var pixelX := x + (kx - kernelHalf);
      var pixelY := y + (ky - kernelHalf);
      pixelX := ClampIndex(pixelX, 0, width - 1);
      pixelY := ClampIndex(pixelY, 0, height - 1);
      var pixelValue := grayImage[pixelX, pixelY].r;
      assert pixelValue * k[ky][kx] == Tap(img, k, x, y, ky, kx);
      sum := sum + pixelValue * k[ky][kx];
    }
  }

  method Convolve(img: array2<Color>, k: Kernel) returns (out: array2<Color>)
    requires ValidImage(img) && WellFormed(k)
    ensures fresh(out) && SameSize(out, img) && ValidImage(out)
    ensures forall x, y :: 0 <= x < out.Length0 && 0 <= y < out.Length1 ==> out[x, y] == ConvolvedPixel(img, k, x, y)
  {
    var grayImage := ConvertToGrayscale(img);
    out := new Color[grayImage.Length0, grayImage.Length1];
    for y := 0 to grayImage.Length1
      invariant forall i, j :: 0 <= i < img.Length0 && 0 <= j < img.Length1 ==> grayImage[i, j] == GrayscalePixel(img[i, j])
      invariant forall i, j :: 0 <= i < out.Length0 && 0 <= j < y ==> out[i, j] == ConvolvedPixel(img, k, i, j)
    {
      ConvolveRow(grayImage, img, k, out, y);
    }
  }

  /** Row y of Convolve; the other rows are left as they were. */
  method ConvolveRow(grayImage: array2<Color>, img: array2<Color>, k: Kernel, out: array2<Color>, y: int)
    requires SameSize(grayImage, img) && SameSize(out, img) && 0 <= y < img.Length1 && WellFormed(k)
    requires forall i, j :: 0 <= i < img.Length0 && 0 <= j < img.Length1 ==> grayImage[i, j] == GrayscalePixel(img[i, j])
    requires out != img && out != grayImage
    modifies out
    ensures forall i :: 0 <= i < out.Length0 ==> out[i, y] == ConvolvedPixel(img, k, i, y)
    ensures forall i, j :: 0 <= i < out.Length0 && 0 <= j < out.Length1 && j != y ==> out[i, j] == old(out[i, j])
  {
    for x := 0 to out.Length0
      invariant forall i :: 0 <= i < x ==> out[i, y] == ConvolvedPixel(img, k, i, y)
      invariant forall i, j :: 0 <= i < out.Length0 && 0 <= j < out.Length1 && j != y ==> out[i, j] == old(out[i, j])
    {
      var sum := ConvolveAt(grayImage, img, k, x, y);
      var finalValue := Clamp(sum, 0.0, 1.0);
      out[x, y] := Color(finalValue, finalValue, finalValue, 1.0);
    }
  }

  method ApplyLowPassFilter(img: array2<Color>, t: LowPass) returns (out: array2<Color>)
    requires ValidImage(img)
    ensures fresh(out) && SameSize(out, img) && ValidImage(out)
    ensures forall x, y :: 0 <= x < out.Length0 && 0 <= y < out.Length1 ==>
              out[x, y] == ConvolvedPixel(img, GetLowPassKernel(t), x, y)
  {
    out := Convolve(img, GetLowPassKernel(t));
  }

  method ApplyHighPassFilter(img: array2<Color>, t: HighPass) returns (out: array2<Color>)
    requires ValidImage(img)
    ensures fresh(out) && SameSize(out, img) && ValidImage(out)
    ensures forall x, y :: 0 <= x < out.Length0 && 0 <= y < out.Length1 ==>
              out[x, y] == ConvolvedPixel(img, GetHighPassKernel(t), x, y)
  {
    SharpeningPreservesFlat(t);
    out := Convolve(img, GetHighPassKernel(t));
  }

  // ---------------------------------------------------------------------
  // Properties of the convolution sum

  /** Every pixel has the same gray value v. */
  predicate Flat(img: array2<Color>, v: real)
    reads img
  {
    forall x, y :: 0 <= x < img.Length0 && 0 <= y < img.Length1 ==> Luma(img[x, y]) == v
  }

  lemma {:induction false} FlatRowResponse(img: array2<Color>, k: Kernel, x: int, y: int, ky: int, n: nat, v: real)
    requires 0 <= x < img.Length0 && 0 <= y < img.Length1
    requires IsSquare(k, |k|) && 0 <= ky < |k| && n <= |k| && Flat(img, v)
    ensures RowResponse(img, k, x, y, ky, n) == v * RowTotal(k[ky][..n])
  {
    if n > 0 {
      var row := k[ky][..n];
      var before, w := RowTotal(k[ky][..n - 1]), k[ky][n - 1];
      assert row[..n - 1] == k[ky][..n - 1];
      assert RowTotal(row) == before + w;
      var rest, tap := RowResponse(img, k, x, y, ky, n - 1), Tap(img, k, x, y, ky, n - 1);
      assert RowResponse(img, k, x, y, ky, n) == rest + tap;
      FlatRowResponse(img, k, x, y, ky, n - 1, v);
      FlatTap(img, k, x, y, ky, n - 1, v);
      Distribute(v, before, w);
    }
  }

  lemma {:induction false} FlatResponsePrefix(img: array2<Color>, k: Kernel, x: int, y: int, m: nat, v: real)
    requires 0 <= x < img.Length0 && 0 <= y < img.Length1
    requires IsSquare(k, |k|) && m <= |k| && Flat(img, v)
    ensures Response(img, k, x, y, m) == v * KernelTotal(k[..m])
  {
    if m > 0 {
      var before, last := KernelTotal(k[..m - 1]), RowTotal(k[m - 1]);
      assert k[..m][..m - 1] == k[..m - 1];
      assert KernelTotal(k[..m]) == before + last;
      var rest, row := Response(img, k, x, y, m - 1), RowResponse(img, k, x, y, m - 1, |k|);
      assert Response(img, k, x, y, m) == rest + row;
      FlatResponsePrefix(img, k, x, y, m - 1, v);
      FlatRowResponse(img, k, x, y, m - 1, |k|, v);
      assert k[m - 1][..|k|] == k[m - 1];
      Distribute(v, before, last);
    }
  }

  /** On a flat image every product is the gray value times its cell. */
  lemma FlatTap(img: array2<Color>, k: Kernel, x: int, y: int, ky: int, kx: int, v: real)
    requires 0 <= x < img.Length0 && 0 <= y < img.Length1
    requires WellFormed(k) && 0 <= ky < |k| && 0 <= kx < |k| && Flat(img, v)
    ensures Tap(img, k, x, y, ky, kx) == v * k[ky][kx]
  {
    var half := |k| / 2;
    var pixelX := ClampIndex(x + (kx - half), 0, img.Length0 - 1);
    var pixelY := ClampIndex(y + (ky - half), 0, img.Length1 - 1);
    assert Luma(img[pixelX, pixelY]) == v;
  }

  /** On a flat image the sum is the gray value times the kernel's total. */
  lemma FlatResponse(img: array2<Color>, k: Kernel, x: int, y: int, v: real)
    requires 0 <= x < img.Length0 && 0 <= y < img.Length1
    requires IsSquare(k, |k|) && Flat(img, v)
    ensures Response(img, k, x, y, |k|) == v * KernelTotal(k)
  {
    FlatResponsePrefix(img, k, x, y, |k|, v);
    assert k[..|k|] == k;
  }

  /** Low-pass and high-pass filters leave a flat image as it is: both kernel
      families sum to 1. */
  lemma FiltersKeepFlatImages(img: array2<Color>, x: int, y: int, v: real, lt: LowPass, ht: HighPass)
    requires 0 <= x < img.Length0 && 0 <= y < img.Length1
    requires Flat(img, v) && InUnit(v)
    ensures ConvolvedPixel(img, GetLowPassKernel(lt), x, y) == GrayColor(v)
    ensures ConvolvedPixel(img, GetHighPassKernel(ht), x, y) == GrayColor(v)
  {
    MeanKernelSumsToOne(MeanSize(lt));
    FlatResponse(img, GetLowPassKernel(lt), x, y, v);
    SharpeningPreservesFlat(ht);
    FlatResponse(img, GetHighPassKernel(ht), x, y, v);
  }

  /** The Gaussian blur of the detector leaves a flat image as it is: the
      normalised kernel sums to 1. */
  lemma GaussianKeepsFlatImages(img: array2<Color>, x: int, y: int, v: real, size: nat, sigma: real, exp: real -> real)
    requires 0 <= x < img.Length0 && 0 <= y < img.Length1
    requires Flat(img, v) && InUnit(v)
    requires size > 0 && sigma != 0.0 && Positive(exp)
    ensures KernelTotal(RawGaussian(size, sigma, exp)) > 0.0
    ensures ConvolvedPixel(img, GaussianKernel(size, sigma, exp), x, y) == GrayColor(v)
  {
    RawGaussianTotalPositive(size, sigma, exp);
    var k := GaussianKernel(size, sigma, exp);
    GaussianKernelSumsToOne(size, sigma, exp);
    assert IsSquare(k, |k|);
    FlatResponse(img, k, x, y, v);
  }

  /** The 3 x 3 kernel with a single 1 in the centre. */
  const CENTRE_KERNEL: Kernel := [[0.0, 0.0, 0.0], [0.0, 1.0, 0.0], [0.0, 0.0, 0.0]]

  /** A kernel row of zeros contributes nothing. */
  lemma {:induction false} ZeroRowResponse(img: array2<Color>, k: Kernel, x: int, y: int, ky: int, n: nat)
    requires 0 <= x < img.Length0 && 0 <= y < img.Length1
    requires WellFormed(k) && 0 <= ky < |k| && n <= |k|
    requires forall j :: 0 <= j < |k[ky]| ==> k[ky][j] == 0.0
    ensures RowResponse(img, k, x, y, ky, n) == 0.0
  {
    if n > 0 {
      ZeroRowResponse(img, k, x, y, ky, n - 1);
      assert Tap(img, k, x, y, ky, n - 1) == 0.0;
    }
  }

  /** Convolving with the centre kernel gives the grayscale of the input. */
  lemma CentreKernelGivesGrayscale(img: array2<Color>, x: int, y: int)
    requires ValidImage(img) && 0 <= x < img.Length0 && 0 <= y < img.Length1
    ensures ConvolvedPixel(img, CENTRE_KERNEL, x, y) == GrayColor(GrayscalePixel(img[x, y]).r)
  {
    var k := CENTRE_KERNEL;
    assert WellFormed(k);
    ZeroRowResponse(img, k, x, y, 0, 3);
    ZeroRowResponse(img, k, x, y, 2, 3);
    assert Tap(img, k, x, y, 1, 0) == 0.0;
    assert Tap(img, k, x, y, 1, 1) == Luma(img[x, y]);
    assert Tap(img, k, x, y, 1, 2) == 0.0;
    assert RowResponse(img, k, x, y, 1, 1) == 0.0;
    assert RowResponse(img, k, x, y, 1, 2) == Luma(img[x, y]);
    assert RowResponse(img, k, x, y, 1, 3) == Luma(img[x, y]);
    assert Response(img, k, x, y, 1) == 0.0;
    assert Response(img, k, x, y, 2) == Luma(img[x, y]);
    assert Response(img, k, x, y, 3) == Luma(img[x, y]);
    LumaInUnit(img[x, y]);
  }

  /** A kernel with no negative entry. */
  predicate NonNegative(k: Kernel) {
    forall i, j :: 0 <= i < |k| && 0 <= j < |k[i]| ==> k[i][j] >= 0.0
  }

  lemma {:induction false} BoundedRowResponse(img: array2<Color>, k: Kernel, x: int, y: int, ky: int, n: nat)
    requires ValidImage(img) && 0 <= x < img.Length0 && 0 <= y < img.Length1
    requires IsSquare(k, |k|) && NonNegative(k) && 0 <= ky < |k| && n <= |k|
    ensures 0.0 <= RowResponse(img, k, x, y, ky, n) <= RowTotal(k[ky][..n])
  {
    if n > 0 {
      BoundedRowResponse(img, k, x, y, ky, n - 1);
      assert k[ky][..n][..n - 1] == k[ky][..n - 1];
      TapBounded(img, k, x, y, ky, n - 1);
    }
  }

  lemma TapBounded(img: array2<Color>, k: Kernel, x: int, y: int, ky: int, kx: int)
    requires ValidImage(img) && 0 <= x < img.Length0 && 0 <= y < img.Length1
    requires IsSquare(k, |k|) && NonNegative(k) && 0 <= ky < |k| && 0 <= kx < |k|
    ensures 0.0 <= Tap(img, k, x, y, ky, kx) <= k[ky][kx]
  {
    var half := |k| / 2;
    var c := img[ClampIndex(x + (kx - half), 0, img.Length0 - 1), ClampIndex(y + (ky - half), 0, img.Length1 - 1)];
    assert ValidColor(c);
    LumaInUnit(c);
    var g, w := Luma(c), k[ky][kx];
    assert InUnit(g) && w >= 0.0;
    assert Tap(img, k, x, y, ky, kx) == g * w;
    WeightedBelowWeight(g, w);
  }

  /** A value in [0,1] times a non-negative weight lies between 0 and the weight. */
  lemma WeightedBelowWeight(g: real, w: real)
    requires InUnit(g) && w >= 0.0
    ensures 0.0 <= g * w <= w
  {
    assert g * w <= 1.0 * w;
  }

  lemma {:induction false} BoundedResponsePrefix(img: array2<Color>, k: Kernel, x: int, y: int, m: nat)
    requires ValidImage(img) && 0 <= x < img.Length0 && 0 <= y < img.Length1
    requires IsSquare(k, |k|) && NonNegative(k) && m <= |k|
    ensures 0.0 <= Response(img, k, x, y, m) <= KernelTotal(k[..m])
  {
    if m > 0 {
      BoundedResponsePrefix(img, k, x, y, m - 1);
      BoundedRowResponse(img, k, x, y, m - 1, |k|);
      assert k[..m][..m - 1] == k[..m - 1];
      assert k[m - 1][..|k|] == k[m - 1];
    }
  }

  /** With a non-negative kernel that sums to 1 the sum is a weighted average
      of gray values, so it already lies in [0,1] and the final clamp changes
      nothing. */
  lemma AveragingNeedsNoClamp(img: array2<Color>, k: Kernel, x: int, y: int)
    requires ValidImage(img) && 0 <= x < img.Length0 && 0 <= y < img.Length1
    requires IsSquare(k, |k|) && NonNegative(k) && KernelTotal(k) == 1.0
    ensures InUnit(Response(img, k, x, y, |k|))
    ensures ConvolvedPixel(img, k, x, y) == GrayColor(Response(img, k, x, y, |k|))
  {
    BoundedResponsePrefix(img, k, x, y, |k|);
    assert k[..|k|] == k;
  }

  /** The averaging kernels have no negative entry, so a low-pass filter
      never needs its clamp. */
  lemma LowPassNeedsNoClamp(img: array2<Color>, t: LowPass, x: int, y: int)
    requires ValidImage(img) && 0 <= x < img.Length0 && 0 <= y < img.Length1
    ensures InUnit(Response(img, GetLowPassKernel(t), x, y, MeanSize(t)))
  {
    var n := MeanSize(t);
    assert (n * n) as real > 0.0;
    MeanKernelSumsToOne(n);
    AveragingNeedsNoClamp(img, GetLowPassKernel(t), x, y);
  }

  lemma {:induction false} SameLumaRowResponse(a: array2<Color>, b: array2<Color>, k: Kernel, x: int, y: int, ky: int, n: nat)
    requires SameSize(a, b) && 0 <= x < a.Length0 && 0 <= y < a.Length1
    requires WellFormed(k) && 0 <= ky < |k| && n <= |k|
    requires forall i, j :: 0 <= i < a.Length0 && 0 <= j < a.Length1 ==> Luma(a[i, j]) == Luma(b[i, j])
    ensures RowResponse(a, k, x, y, ky, n) == RowResponse(b, k, x, y, ky, n)
  {
    if n > 0 {
      SameLumaRowResponse(a, b, k, x, y, ky, n - 1);
    }
  }

  lemma {:induction false} SameLumaResponse(a: array2<Color>, b: array2<Color>, k: Kernel, x: int, y: int, m: nat)
    requires SameSize(a, b) && 0 <= x < a.Length0 && 0 <= y < a.Length1
    requires WellFormed(k) && m <= |k|
    requires forall i, j :: 0 <= i < a.Length0 && 0 <= j < a.Length1 ==> Luma(a[i, j]) == Luma(b[i, j])
    ensures Response(a, k, x, y, m) == Response(b, k, x, y, m)
  {
    if m > 0 {
      SameLumaResponse(a, b, k, x, y, m - 1);
      SameLumaRowResponse(a, b, k, x, y, m - 1, |k|);
    }
  }

  /** Convolving an image that is already grayscale gives what convolving the
      original gives: the conversion keeps every channel average. */
  lemma GrayscaleFirstChangesNothing(img: array2<Color>, gray: array2<Color>, k: Kernel, x: int, y: int)
    requires SameSize(gray, img) && 0 <= x < img.Length0 && 0 <= y < img.Length1 && WellFormed(k)
    requires forall i, j :: 0 <= i < img.Length0 && 0 <= j < img.Length1 ==> gray[i, j] == GrayscalePixel(img[i, j])
    ensures ConvolvedPixel(gray, k, x, y) == ConvolvedPixel(img, k, x, y)
  {
    SameLumaResponse(gray, img, k, x, y, |k|);
  }

  // ---------------------------------------------------------------------
  // Canny: gradients

  /** The signed Sobel response at (x, y): the weighted sum read before the
      clamp to [0,1] that Convolve applies. */
  function SignedGradient(img: array2<Color>, k: Kernel, x: int, y: int): real
    reads img
    requires 0 <= x < img.Length0 && 0 <= y < img.Length1 && WellFormed(k)
  {
    Response(img, k, x, y, |k|)
  }

  /** Arrays indexed [y, x] over the grid of an image indexed [x, y]. */
  predicate Transposed<T, U>(grid: array2<T>, img: array2<U>) {
    grid.Length0 == img.Length1 && grid.Length1 == img.Length0
  }

  /** The signed response of a kernel at every pixel, in an array indexed
      [y, x]: the same sums as Convolve, without the clamp. */
  method SignedConvolve(img: array2<Color>, k: Kernel) returns (g: array2<real>)
    requires ValidImage(img) && WellFormed(k)
    ensures fresh(g) && Transposed(g, img)
    ensures forall y, x :: 0 <= y < g.Length0 && 0 <= x < g.Length1 ==> g[y, x] == SignedGradient(img, k, x, y)
  {
    var grayImage := ConvertToGrayscale(img);
    g := new real[img.Length1, img.Length0];
    for y := 0 to img.Length1
      invariant forall i, j :: 0 <= i < img.Length0 && 0 <= j < img.Length1 ==> grayImage[i, j] == GrayscalePixel(img[i, j])
      invariant forall j, i :: 0 <= j < y && 0 <= i < img.Length0 ==> g[j, i] == SignedGradient(img, k, i, j)
    {
      SignedConvolveRow(grayImage, img, k, g, y);
    }
  }

  /** Row y of SignedConvolve; the other rows are left as they were. */
  method SignedConvolveRow(grayImage: array2<Color>, img: array2<Color>, k: Kernel, g: array2<real>, y: int)
    requires SameSize(grayImage, img) && Transposed(g, img) && 0 <= y < img.Length1 && WellFormed(k)
    requires forall i, j :: 0 <= i < img.Length0 && 0 <= j < img.Length1 ==> grayImage[i, j] == GrayscalePixel(img[i, j])
    modifies g
    ensures forall i :: 0 <= i < g.Length1 ==> g[y, i] == SignedGradient(img, k, i, y)
    ensures forall j, i :: 0 <= j < g.Length0 && 0 <= i < g.Length1 && j != y ==> g[j, i] == old(g[j, i])
  {
    for x := 0 to img.Length0
      invariant forall i :: 0 <= i < x ==> g[y, i] == SignedGradient(img, k, i, y)
      invariant forall j, i :: 0 <= j < g.Length0 && 0 <= i < g.Length1 && j != y ==> g[j, i] == old(g[j, i])
    {
      var sum := ConvolveAt(grayImage, img, k, x, y);
      g[y, x] := sum;
    }
  }

  /** The squared gradient magnitude at (y, x). */
  function GradientEnergy(gx: array2<real>, gy: array2<real>, y: int, x: int): real
    reads gx, gy
    requires SameSize(gx, gy) && 0 <= y < gx.Length0 && 0 <= x < gx.Length1
  {
    gx[y, x] * gx[y, x] + gy[y, x] * gy[y, x]
  }

  /** The gradient magnitude at (y, x); the square root is supplied from
      outside. */
  function MagnitudeAt(gx: array2<real>, gy: array2<real>, y: int, x: int, sqrt: real -> real): real
    reads gx, gy
    requires SameSize(gx, gy) && 0 <= y < gx.Length0 && 0 <= x < gx.Length1
  {
    sqrt(GradientEnergy(gx, gy, y, x))
  }

  /** The gradient direction at (y, x), as atan2(gy, gx). */
  function DirectionAt(gx: array2<real>, gy: array2<real>, y: int, x: int, atan2: (real, real) -> real): real
    reads gx, gy
    requires SameSize(gx, gy) && 0 <= y < gx.Length0 && 0 <= x < gx.Length1
  {
    atan2(gy[y, x], gx[y, x])
  }

  /** Fills row y of the magnitude and direction arrays and raises the running
      maximum, returning the column where a new maximum was found. */
  method GradientRow(gx: array2<real>, gy: array2<real>, magnitude: array2<real>, direction: array2<real>,
                     y: int, sqrt: real -> real, atan2: (real, real) -> real, maxIn: real)
    returns (maxOut: real, ghost column: int)
    requires SameSize(gx, gy) && SameSize(magnitude, gx) && SameSize(direction, gx) && 0 <= y < gx.Length0
    requires magnitude != direction && magnitude != gx && magnitude != gy && direction != gx && direction != gy
    modifies magnitude, direction
    ensures forall i :: 0 <= i < gx.Length1 ==>
              magnitude[y, i] == MagnitudeAt(gx, gy, y, i, sqrt) &&
              direction[y, i] == DirectionAt(gx, gy, y, i, atan2) &&
              magnitude[y, i] <= maxOut
    ensures forall j, i :: 0 <= j < magnitude.Length0 && 0 <= i < magnitude.Length1 && j != y ==>
              magnitude[j, i] == old(magnitude[j, i]) && direction[j, i] == old(direction[j, i])
    ensures maxOut == maxIn || (0 <= column < gx.Length1 && magnitude[y, column] == maxOut && maxOut > maxIn)
    ensures maxOut >= maxIn
  {
    maxOut, column := maxIn, 0;
    for x := 0 to gx.Length1
      invariant forall i :: 0 <= i < x ==>
                  magnitude[y, i] == MagnitudeAt(gx, gy, y, i, sqrt) &&
                  direction[y, i] == DirectionAt(gx, gy, y, i, atan2) &&
                  magnitude[y, i] <= maxOut
      invariant forall j, i :: 0 <= j < magnitude.Length0 && 0 <= i < magnitude.Length1 && j != y ==>
                  magnitude[j, i] == old(magnitude[j, i]) && direction[j, i] == old(direction[j, i])
      invariant maxOut == maxIn || (0 <= column < x && magnitude[y, column] == maxOut && maxOut > maxIn)
      invariant maxOut >= maxIn
    {
      var gxv := gx[y, x];
      var gyv := gy[y, x];
      assert gxv * gxv + gyv * gyv == GradientEnergy(gx, gy, y, x);
      magnitude[y, x] := sqrt(gxv * gxv + gyv * gyv);
      if magnitude[y, x] > maxOut {
        maxOut := magnitude[y, x];
        column := x;
      }
      direction[y, x] := atan2(gyv, gxv);
    }
  }

  /** Magnitude and direction at every cell (arrays indexed [y, x]), and the
      largest magnitude, or 0 when every magnitude is at most 0. The square
      root and the two-argument arctangent are supplied from outside. */
  method ComputeGradients(gx: array2<real>, gy: array2<real>, sqrt: real -> real, atan2: (real, real) -> real)
    returns (magnitude: array2<real>, direction: array2<real>, maxMag: real)
    requires SameSize(gx, gy)
    ensures fresh(magnitude) && fresh(direction) && magnitude != direction
    ensures SameSize(magnitude, gx) && SameSize(direction, gx)
    ensures forall y, x :: 0 <= y < magnitude.Length0 && 0 <= x < magnitude.Length1 ==>
              magnitude[y, x] == MagnitudeAt(gx, gy, y, x, sqrt) &&
              direction[y, x] == DirectionAt(gx, gy, y, x, atan2)
    ensures maxMag >= 0.0
    ensures forall y, x :: 0 <= y < magnitude.Length0 && 0 <= x < magnitude.Length1 ==> magnitude[y, x] <= maxMag
    ensures maxMag == 0.0 || exists y, x :: 0 <= y < magnitude.Length0 && 0 <= x < magnitude.Length1 && magnitude[y, x] == maxMag
  {
    var height, width := gx.Length0, gx.Length1;
    magnitude := new real[height, width];
    direction := new real[height, width];
    maxMag := 0.0;
    ghost var wy, wx := 0, 0;
    for y := 0 to height
      invariant forall j, i :: 0 <= j < y && 0 <= i < width ==>
                  magnitude[j, i] == MagnitudeAt(gx, gy, j, i, sqrt) &&
                  direction[j, i] == DirectionAt(gx, gy, j, i, atan2) &&
                  magnitude[j, i] <= maxMag
      invariant maxMag >= 0.0
      invariant maxMag == 0.0 || (0 <= wy < y && 0 <= wx < width && magnitude[wy, wx] == maxMag)
    {
      var rowMax;
      ghost var column;
      rowMax, column := GradientRow(gx, gy, magnitude, direction, y, sqrt, atan2, maxMag);
      if rowMax != maxMag {
        wy, wx := y, column;
      }
      maxMag := rowMax;
    }
  }

  /** Divides every magnitude by the largest one when that is positive. */
  method NormalizeMagnitude(magnitude: array2<real>, maxMag: real)
    modifies magnitude
    ensures old(AllZero(magnitude)) ==> AllZero(magnitude)
    ensures forall y, x :: 0 <= y < magnitude.Length0 && 0 <= x < magnitude.Length1 ==>
              magnitude[y, x] == if maxMag > 0.0 then old(magnitude[y, x]) / maxMag else old(magnitude[y, x])
  {
    if maxMag > 0.0 {
      for y := 0 to magnitude.Length0
        invariant forall j, i :: 0 <= j < magnitude.Length0 && 0 <= i < magnitude.Length1 ==>
                    magnitude[j, i] == if j < y then old(magnitude[j, i]) / maxMag else old(magnitude[j, i])
      {
        for x := 0 to magnitude.Length1
          invariant forall j, i :: 0 <= j < magnitude.Length0 && 0 <= i < magnitude.Length1 ==>
                      magnitude[j, i] == if j < y || (j == y && i < x) then old(magnitude[j, i]) / maxMag else old(magnitude[j, i])
        {
          magnitude[y, x] := magnitude[y, x] / maxMag;
        }
      }
    }
  }

  /** A magnitude in [0, maxMag] lands in [0,1] after the division. */
  lemma NormalizedMagnitudeInUnit(m: real, maxMag: real)
    requires maxMag > 0.0 && 0.0 <= m <= maxMag
    ensures InUnit(m / maxMag)
  {
    assert m / maxMag * maxMag == m;
  }

  // ---------------------------------------------------------------------
  // Canny: non-maximum suppression

  /** The gradient angle in degrees, folded from (-180, 0) into (0, 180). */
  function FoldedAngle(direction: real): real {
    var angle := direction * 180.0 / PI;
    if angle < 0.0 then angle + 180.0 else angle
  }

  /** The suppressed value at an interior pixel: the magnitude if it is at
      least both neighbours across the quantised gradient direction, else 0.
      An angle outside [0, 180] compares against 255. */
  function SuppressedAt(magnitude: array2<real>, direction: array2<real>, y: int, x: int): real
    reads magnitude, direction
    requires SameSize(magnitude, direction)
    requires 1 <= y < magnitude.Length0 - 1 && 1 <= x < magnitude.Length1 - 1
  {
    var angle := FoldedAngle(direction[y, x]);
    var qr :=
      if (0.0 <= angle < 22.5) || (157.5 <= angle <= 180.0) then (magnitude[y, x + 1], magnitude[y, x - 1])
      else if 22.5 <= angle < 67.5 then (magnitude[y + 1, x - 1], magnitude[y - 1, x + 1])
      else if 67.5 <= angle < 112.5 then (magnitude[y + 1, x], magnitude[y - 1, x])
      else if 112.5 <= angle < 157.5 then (magnitude[y - 1, x - 1], magnitude[y + 1, x + 1])
      else (255.0, 255.0);
    if magnitude[y, x] >= qr.0 && magnitude[y, x] >= qr.1 then magnitude[y, x] else 0.0
  }

  /** Whether (y, x) is off the one-pixel border of a height x width grid. */
  predicate Interior(y: int, x: int, height: int, width: int) {
    1 <= y < height - 1 && 1 <= x < width - 1
  }

  method NonMaximumSuppression(magnitude: array2<real>, direction: array2<real>) returns (result: array2<real>)
    requires SameSize(magnitude, direction) && magnitude.Length0 > 0
    ensures fresh(result) && SameSize(result, magnitude)
    ensures forall y, x :: 0 <= y < result.Length0 && 0 <= x < result.Length1 ==>
              result[y, x] == if Interior(y, x, result.Length0, result.Length1) then SuppressedAt(magnitude, direction, y, x) else 0.0
  {
    var height, width := magnitude.Length0, magnitude.Length1;
    result := new real[height, width]((y, x) => 0.0);
    for y := 1 to if height - 1 < 1 then 1 else height - 1
      invariant forall j, i :: 0 <= j < height && 0 <= i < width ==>
                  result[j, i] == if Interior(j, i, height, width) && j < y then SuppressedAt(magnitude, direction, j, i) else 0.0
    {
      for x := 1 to if width - 1 < 1 then 1 else width - 1
        invariant forall j, i :: 0 <= j < height && 0 <= i < width ==>
                    result[j, i] == if Interior(j, i, height, width) && (j < y || (j == y && i < x)) then SuppressedAt(magnitude, direction, j, i) else 0.0
      {
        var angle := direction[y, x] * 180.0 / PI;
        if angle < 0.0 {
          angle := angle + 180.0;
        }
        var q, r := 255.0, 255.0;
        if (0.0 <= angle && angle < 22.5) || (157.5 <= angle && angle <= 180.0) {
          q, r := magnitude[y, x + 1], magnitude[y, x - 1];
        } else if 22.5 <= angle && angle < 67.5 {
          q, r := magnitude[y + 1, x - 1], magnitude[y - 1, x + 1];
        } else if 67.5 <= angle && angle < 112.5 {
          q, r := magnitude[y + 1, x], magnitude[y - 1, x];
        } else if 112.5 <= angle && angle < 157.5 {
          q, r := magnitude[y - 1, x - 1], magnitude[y + 1, x + 1];
        }
        if magnitude[y, x] >= q && magnitude[y, x] >= r {
          result[y, x] := magnitude[y, x];
        } else {
          result[y, x] := 0.0;
        }
      }
    }
  }

  /** Suppression either keeps a magnitude or zeroes it; it never exceeds the
      magnitude when that is non-negative. */
  lemma SuppressionKeepsOrZeroes(magnitude: array2<real>, direction: array2<real>, y: int, x: int)
    requires SameSize(magnitude, direction)
    requires 1 <= y < magnitude.Length0 - 1 && 1 <= x < magnitude.Length1 - 1
    ensures SuppressedAt(magnitude, direction, y, x) == magnitude[y, x] || SuppressedAt(magnitude, direction, y, x) == 0.0
    ensures magnitude[y, x] >= 0.0 ==> 0.0 <= SuppressedAt(magnitude, direction, y, x) <= magnitude[y, x]
  {
  }

  /** An arctangent result in [-pi, pi] folds into [0, 180] degrees. */
  lemma FoldedAngleInRange(direction: real)
    requires -PI <= direction <= PI
    ensures 0.0 <= FoldedAngle(direction) <= 180.0
  {
    assert PI > 3.0;
    var a := direction * 180.0 / PI;
    assert a * PI == direction * 180.0;
  }

  /** Every folded arctangent falls into one of the four direction bins, so
      the 255 placeholders are never compared against. */
  lemma DirectionBinsCoverFoldedAngles(direction: real)
    requires -PI <= direction <= PI
    ensures var angle := FoldedAngle(direction);
      (0.0 <= angle < 22.5) || (157.5 <= angle <= 180.0) || (22.5 <= angle < 67.5) ||
      (67.5 <= angle < 112.5) || (112.5 <= angle < 157.5)
  {
    FoldedAngleInRange(direction);
  }

  /** A pixel whose magnitude is at least that of all eight neighbours keeps
      it, provided its direction is a genuine arctangent in [-pi, pi]. */
  lemma LocalMaximumSurvives(magnitude: array2<real>, direction: array2<real>, y: int, x: int)
    requires SameSize(magnitude, direction)
    requires 1 <= y < magnitude.Length0 - 1 && 1 <= x < magnitude.Length1 - 1
    requires -PI <= direction[y, x] <= PI
    requires forall j, i :: y - 1 <= j <= y + 1 && x - 1 <= i <= x + 1 ==> magnitude[j, i] <= magnitude[y, x]
    ensures SuppressedAt(magnitude, direction, y, x) == magnitude[y, x]
  {
    FoldedAngleInRange(direction[y, x]);
  }

  // ---------------------------------------------------------------------
  // Canny: double threshold and hysteresis

  const WEAK: real := 0.5

  /** The class of one suppressed value: strong (white), weak (mid gray) or
      none (black). */
  function ThresholdPixel(v: real, low: real, high: real): (c: Color)
    ensures ValidColor(c)
  {
    if v >= high then WHITE else if v >= low then GrayColor(WEAK) else BLACK
  }

  /** The strength rank of a class: 2 strong, 1 weak, 0 none. */
  function Rank(c: Color): int {
    if c == WHITE then 2 else if c == GrayColor(WEAK) then 1 else 0
  }

  /** Classification is monotone: a larger value never gets a weaker class;
      when low < high, exactly the values in [low, high) are weak. */
  lemma ThresholdMonotone(v1: real, v2: real, low: real, high: real)
    requires v1 <= v2
    ensures Rank(ThresholdPixel(v1, low, high)) <= Rank(ThresholdPixel(v2, low, high))
    ensures low < high ==> (ThresholdPixel(v1, low, high) == GrayColor(WEAK) <==> low <= v1 < high)
  {
  }

  method DoubleThreshold(image: array2<real>, low: real, high: real) returns (result: array2<Color>)
    requires image.Length0 > 0
    ensures fresh(result) && result.Length0 == image.Length1 && result.Length1 == image.Length0
    ensures forall x, y :: 0 <= x < result.Length0 && 0 <= y < result.Length1 ==>
              result[x, y] == ThresholdPixel(image[y, x], low, high)
  {
    var height, width := image.Length0, image.Length1;
    result := new Color[width, height];
    for y := 0 to height
      invariant forall i, j :: 0 <= i < width && 0 <= j < y ==> result[i, j] == ThresholdPixel(image[j, i], low, high)
    {
      for x := 0 to width
        invariant forall i, j :: 0 <= i < width && 0 <= j < y ==> result[i, j] == ThresholdPixel(image[j, i], low, high)
        invariant forall i :: 0 <= i < x ==> result[i, y] == ThresholdPixel(image[y, i], low, high)
      {
        var val := image[y, x];
        if val >= high {
          result[x, y] := WHITE;
        } else if val >= low {
          result[x, y] := GrayColor(WEAK);
        } else {
          result[x, y] := BLACK;
        }
      }
    }
  }

  /** Some pixel of the 3 x 3 neighbourhood of (x, y) is strong. */
  predicate StrongNeighbour(img: array2<Color>, x: int, y: int)
    reads img
    requires 1 <= x < img.Length0 - 1 && 1 <= y < img.Length1 - 1
  {
    exists i, j :: x - 1 <= i <= x + 1 && y - 1 <= j <= y + 1 && img[i, j] == WHITE
  }

  /** The hysteresis output: strong pixels stay, interior weak pixels with a
      strong neighbour in the input become strong, all else is black. */
  function HysteresisPixel(img: array2<Color>, x: int, y: int): Color
    reads img
    requires 0 <= x < img.Length0 && 0 <= y < img.Length1
  {
    if img[x, y] == WHITE then WHITE
    else if 1 <= x < img.Length0 - 1 && 1 <= y < img.Length1 - 1 && img[x, y] == GrayColor(WEAK) && StrongNeighbour(img, x, y) then WHITE
    else BLACK
  }

  /** Scans the neighbourhood of a weak pixel, row by row, and whitens the
      output pixel on the first strong neighbour of a row. */
  method PromoteWeak(img: array2<Color>, result: array2<Color>, x: int, y: int)
    requires SameSize(img, result) && img != result
    requires 1 <= x < img.Length0 - 1 && 1 <= y < img.Length1 - 1
    modifies result
    ensures result[x, y] == if StrongNeighbour(img, x, y) then WHITE else old(result[x, y])
    ensures forall i, j :: 0 <= i < result.Length0 && 0 <= j < result.Length1 && (i != x || j != y) ==> result[i, j] == old(result[i, j])
  {
    for ky := -1 to 2
      invariant result[x, y] == if exists i, j :: x - 1 <= i <= x + 1 && y - 1 <= j < y + ky && img[i, j] == WHITE then WHITE else old(result[x, y])
      invariant forall i, j :: 0 <= i < result.Length0 && 0 <= j < result.Length1 && (i != x || j != y) ==> result[i, j] == old(result[i, j])
    {
      var row := y + ky;
      var kx := -1;
      while kx <= 1
        invariant -1 <= kx <= 2
        invariant forall i :: x - 1 <= i < x + kx ==> img[i, row] != WHITE
        invariant result[x, y] == if exists i, j :: x - 1 <= i <= x + 1 && y - 1 <= j < y + ky && img[i, j] == WHITE then WHITE else old(result[x, y])
        invariant forall i, j :: 0 <= i < result.Length0 && 0 <= j < result.Length1 && (i != x || j != y) ==> result[i, j] == old(result[i, j])
      {
        if img[x + kx, y + ky] == WHITE {
          result[x, y] := WHITE;
          break;
        }
        kx := kx + 1;
      }
    }
  }

  method Hysteresis(img: array2<Color>) returns (result: array2<Color>)
    ensures fresh(result) && SameSize(result, img)
    ensures forall x, y :: 0 <= x < result.Length0 && 0 <= y < result.Length1 ==> result[x, y] == HysteresisPixel(img, x, y)
  {
    var width, height := img.Length0, img.Length1;
    result := new Color[width, height];
    for y := 0 to height
      invariant forall i, j :: 0 <= i < width && 0 <= j < y ==> result[i, j] == if img[i, j] == WHITE then WHITE else BLACK
    {
      for x := 0 to width
        invariant forall i, j :: 0 <= i < width && 0 <= j < y ==> result[i, j] == if img[i, j] == WHITE then WHITE else BLACK
        invariant forall i :: 0 <= i < x ==> result[i, y] == if img[i, y] == WHITE then WHITE else BLACK
      {
        if img[x, y] == WHITE {
          result[x, y] := WHITE;
        } else {
          result[x, y] := BLACK;
        }
      }
    }
    for y := 1 to if height - 1 < 1 then 1 else height - 1
      invariant forall i, j :: 0 <= i < width && 0 <= j < height ==>
                  result[i, j] == if 1 <= j < y then HysteresisPixel(img, i, j) else if img[i, j] == WHITE then WHITE else BLACK
    {
      for x := 1 to if width - 1 < 1 then 1 else width - 1
        invariant forall i, j :: 0 <= i < width && 0 <= j < height ==>
                    result[i, j] == if (1 <= j < y) || (j == y && 1 <= i < x) then HysteresisPixel(img, i, j)
                                    else if img[i, j] == WHITE then WHITE else BLACK
      {
        if img[x, y] == GrayColor(WEAK) {
          PromoteWeak(img, result, x, y);
        }
      }
    }
  }

  /** Hysteresis output is binary; it keeps strong pixels, never creates a
      strong pixel from a black one, and clears the border of weak pixels. */
  lemma HysteresisProperties(img: array2<Color>, x: int, y: int)
    requires 0 <= x < img.Length0 && 0 <= y < img.Length1
    ensures HysteresisPixel(img, x, y) == WHITE || HysteresisPixel(img, x, y) == BLACK
    ensures img[x, y] == WHITE ==> HysteresisPixel(img, x, y) == WHITE
    ensures img[x, y] == BLACK ==> HysteresisPixel(img, x, y) == BLACK
    ensures (x == 0 || y == 0 || x == img.Length0 - 1 || y == img.Length1 - 1) ==>
              (HysteresisPixel(img, x, y) == WHITE <==> img[x, y] == WHITE)
    ensures img[x, y] == GrayColor(WEAK) ==>
              (HysteresisPixel(img, x, y) == WHITE <==>
                 1 <= x < img.Length0 - 1 && 1 <= y < img.Length1 - 1 && StrongNeighbour(img, x, y))
  {
  }

  // ---------------------------------------------------------------------
  // Canny: the whole detector

  /** The kernel held in an array, row by row. */
  function KernelRows(a: array2<real>): (k: Kernel)
    reads a
    ensures IsSquare(k, a.Length0) || a.Length0 != a.Length1
  {
    seq(a.Length0, i requires 0 <= i < a.Length0 reads a => seq(a.Length1, j requires 0 <= j < a.Length1 reads a => a[i, j]))
  }

  /** blurred is img under the detector's 5 x 5 Gaussian blur of sigma 1.4. */
  ghost predicate BlurOf(img: array2<Color>, blurred: array2<Color>, exp: real -> real)
    reads img, blurred
  {
    KernelTotal(RawGaussian(5, 1.4, exp)) > 0.0 && WellFormed(GaussianKernel(5, 1.4, exp)) && SameSize(blurred, img) &&
    forall x, y :: 0 <= x < blurred.Length0 && 0 <= y < blurred.Length1 ==>
      blurred[x, y] == ConvolvedPixel(img, GaussianKernel(5, 1.4, exp), x, y)
  }

  /** gx and gy, indexed [y, x], hold the signed Sobel responses of blurred. */
  ghost predicate SobelOf(blurred: array2<Color>, gx: array2<real>, gy: array2<real>)
    reads blurred, gx, gy
  {
    Transposed(gx, blurred) && SameSize(gy, gx) &&
    forall y, x :: 0 <= y < gx.Length0 && 0 <= x < gx.Length1 ==>
      gx[y, x] == SignedGradient(blurred, SOBEL_X, x, y) && gy[y, x] == SignedGradient(blurred, SOBEL_Y, x, y)
  }

  /** The 5 x 5 kernel array filled by CreateGaussianKernel, read row by row,
      is the Gaussian kernel. */
  lemma GaussianKernelRows(kernel: array2<real>, exp: real -> real)
    requires Positive(exp) && KernelTotal(RawGaussian(5, 1.4, exp)) > 0.0
    requires kernel.Length0 == 5 && kernel.Length1 == 5
    requires forall i, j :: 0 <= i < 5 && 0 <= j < 5 ==> kernel[i, j] == GaussianKernel(5, 1.4, exp)[i][j]
    ensures KernelRows(kernel) == GaussianKernel(5, 1.4, exp) && WellFormed(GaussianKernel(5, 1.4, exp))
  {
    var k := GaussianKernel(5, 1.4, exp);
    assert |RawGaussian(5, 1.4, exp)| == 5;
    assert forall i :: 0 <= i < 5 ==> KernelRows(kernel)[i] == k[i];
  }

  /** magnitude and direction, indexed [y, x], hold the gradient magnitudes of
      gx and gy divided by peak (left as they are when peak is 0) and their
      directions; peak is at least 0 and every unscaled magnitude. */
  ghost predicate ScaledGradients(gx: array2<real>, gy: array2<real>, magnitude: array2<real>, direction: array2<real>,
                                  peak: real, sqrt: real -> real, atan2: (real, real) -> real)
    reads gx, gy, magnitude, direction
  {
    SameSize(gy, gx) && SameSize(magnitude, gx) && SameSize(direction, gx) && peak >= 0.0 &&
    (forall y, x :: 0 <= y < gx.Length0 && 0 <= x < gx.Length1 ==>
       direction[y, x] == DirectionAt(gx, gy, y, x, atan2) &&
       MagnitudeAt(gx, gy, y, x, sqrt) <= peak &&
       magnitude[y, x] == if peak > 0.0 then MagnitudeAt(gx, gy, y, x, sqrt) / peak else MagnitudeAt(gx, gy, y, x, sqrt))
  }

  /** suppressed is the non-maximum suppression of the magnitudes: interior
      cells by SuppressedAt, border cells 0. */
  ghost predicate SuppressionOf(magnitude: array2<real>, direction: array2<real>, suppressed: array2<real>)
    reads magnitude, direction, suppressed
  {
    SameSize(magnitude, direction) && SameSize(suppressed, magnitude) &&
    forall y, x :: 0 <= y < suppressed.Length0 && 0 <= x < suppressed.Length1 ==>
      suppressed[y, x] == if Interior(y, x, suppressed.Length0, suppressed.Length1)
                          then SuppressedAt(magnitude, direction, y, x) else 0.0
  }

  /** thresholded, indexed [x, y], holds the class of every suppressed value. */
  ghost predicate ThresholdOf(suppressed: array2<real>, thresholded: array2<Color>, low: real, high: real)
    reads suppressed, thresholded
  {
    Transposed(thresholded, suppressed) &&
    forall x, y :: 0 <= x < thresholded.Length0 && 0 <= y < thresholded.Length1 ==>
      thresholded[x, y] == ThresholdPixel(suppressed[y, x], low, high)
  }

  /** The detector: a 5 x 5 Gaussian blur of sigma 1.4, Sobel gradients read
      as signed sums (see FlatImageGradientAsWritten for the clamped read-back
      the detector replaces), magnitudes scaled by their maximum, non-maximum
      suppression, the double threshold at low / 255 and high / 255, and
      hysteresis. The ghost outputs are the intermediate stages, each stated
      from the one before. The output is black and white, its border is black
      whenever the high threshold is positive, and an image of one flat gray
      has no edges at all. */
  method ApplyCannyEdgeDetector(img: array2<Color>, lowThreshold: real, highThreshold: real,
                                sqrt: real -> real, atan2: (real, real) -> real, exp: real -> real)
    returns (out: array2<Color>, ghost blurred: array2<Color>, ghost gx: array2<real>, ghost gy: array2<real>,
             ghost magnitude: array2<real>, ghost direction: array2<real>, ghost peak: real,
             ghost suppressed: array2<real>, ghost thresholded: array2<Color>)
    requires ValidImage(img) && Positive(exp)
    ensures fresh(out) && SameSize(out, img)
    ensures BlurOf(img, blurred, exp) && SobelOf(blurred, gx, gy)
    ensures ScaledGradients(gx, gy, magnitude, direction, peak, sqrt, atan2)
    ensures peak == 0.0 || exists y, x :: 0 <= y < gx.Length0 && 0 <= x < gx.Length1 && MagnitudeAt(gx, gy, y, x, sqrt) == peak
    ensures SuppressionOf(magnitude, direction, suppressed)
    ensures ThresholdOf(suppressed, thresholded, lowThreshold / 255.0, highThreshold / 255.0)
    ensures SameSize(thresholded, out)
    ensures forall x, y :: 0 <= x < out.Length0 && 0 <= y < out.Length1 ==> out[x, y] == HysteresisPixel(thresholded, x, y)
    ensures forall x, y :: 0 <= x < out.Length0 && 0 <= y < out.Length1 ==> out[x, y] == WHITE || out[x, y] == BLACK
    ensures highThreshold > 0.0 ==>
              forall x, y :: 0 <= x < out.Length0 && 0 <= y < out.Length1 && !Interior(y, x, out.Length1, out.Length0) ==> out[x, y] == BLACK
    ensures (exists v :: Flat(img, v)) && sqrt(0.0) == 0.0 && lowThreshold > 0.0 && highThreshold > 0.0 ==>
              forall x, y :: 0 <= x < out.Length0 && 0 <= y < out.Length1 ==> out[x, y] == BLACK
  {
    var sobelX, sobelY;
    sobelX, sobelY, blurred := BlurredGradients(img, exp);
    var mag, dir, maxMag := ScaledMagnitudes(sobelX, sobelY, sqrt, atan2);
    out, suppressed, thresholded := EdgesFromMagnitudes(mag, dir, lowThreshold, highThreshold);
    gx, gy, magnitude, direction, peak := sobelX, sobelY, mag, dir, maxMag;
  }

  /** The second half of the detector: non-maximum suppression of the scaled
      magnitudes, the double threshold at low / 255 and high / 255, and
      hysteresis. The ghost outputs are the two intermediate grids. */
  method EdgesFromMagnitudes(magnitude: array2<real>, direction: array2<real>, lowThreshold: real, highThreshold: real)
    returns (out: array2<Color>, ghost suppressed: array2<real>, ghost thresholded: array2<Color>)
    requires SameSize(magnitude, direction) && magnitude.Length0 > 0
    ensures fresh(out) && Transposed(out, magnitude)
    ensures SuppressionOf(magnitude, direction, suppressed)
    ensures ThresholdOf(suppressed, thresholded, lowThreshold / 255.0, highThreshold / 255.0)
    ensures SameSize(thresholded, out)
    ensures forall x, y :: 0 <= x < out.Length0 && 0 <= y < out.Length1 ==> out[x, y] == HysteresisPixel(thresholded, x, y)
    ensures forall x, y :: 0 <= x < out.Length0 && 0 <= y < out.Length1 ==> out[x, y] == WHITE || out[x, y] == BLACK
    ensures highThreshold > 0.0 ==>
              forall x, y :: 0 <= x < out.Length0 && 0 <= y < out.Length1 && !Interior(y, x, out.Length1, out.Length0) ==> out[x, y] == BLACK
    ensures AllZero(magnitude) && lowThreshold > 0.0 && highThreshold > 0.0 ==>
              forall x, y :: 0 <= x < out.Length0 && 0 <= y < out.Length1 ==> out[x, y] == BLACK
  {
    var nms := NonMaximumSuppression(magnitude, direction);
    ghost var none := AllZero(magnitude) && lowThreshold > 0.0 && highThreshold > 0.0;
    if none {
      NothingSurvivesZeroMagnitude(magnitude, direction, nms);
    }
    var classes := DoubleThreshold(nms, lowThreshold / 255.0, highThreshold / 255.0);
    out := Hysteresis(classes);
    forall x, y | 0 <= x < out.Length0 && 0 <= y < out.Length1
      ensures out[x, y] == WHITE || out[x, y] == BLACK
      ensures none ==> out[x, y] == BLACK
    {
      HysteresisProperties(classes, x, y);
      if none {
        assert nms[y, x] == 0.0;
        assert classes[x, y] == BLACK;
      }
    }
    suppressed, thresholded := nms, classes;
  }

  /** The start of the detector: the Gaussian blur and the two signed Sobel
      responses, indexed [y, x]. The ghost output is the blurred image. On a
      flat image both responses are 0 everywhere. */
  method BlurredGradients(img: array2<Color>, exp: real -> real)
    returns (gx: array2<real>, gy: array2<real>, ghost blurred: array2<Color>)
    requires ValidImage(img) && Positive(exp)
    ensures fresh(gx) && fresh(gy) && gx != gy
    ensures BlurOf(img, blurred, exp) && SobelOf(blurred, gx, gy) && Transposed(gx, img)
    ensures (exists v :: Flat(img, v)) ==> AllZero(gx) && AllZero(gy)
  {
    var gaussian := CreateGaussianKernel(5, 1.4, exp);
    var gaussianKernel := gaussian.value;
    GaussianKernelRows(gaussianKernel, exp);
    var blurredImage := Convolve(img, KernelRows(gaussianKernel));
    gx := SignedConvolve(blurredImage, SOBEL_X);
    gy := SignedConvolve(blurredImage, SOBEL_Y);
    blurred := blurredImage;
    if exists v :: Flat(img, v) {
      FlatImageHasNoGradients(img, blurred, gx, gy, exp);
    }
  }

  /** The magnitudes and directions of the two responses, the magnitudes
      then divided by the largest one when that is positive. */
  method ScaledMagnitudes(gx: array2<real>, gy: array2<real>, sqrt: real -> real, atan2: (real, real) -> real)
    returns (magnitude: array2<real>, direction: array2<real>, maxMag: real)
    requires SameSize(gx, gy)
    ensures fresh(magnitude) && fresh(direction) && magnitude != direction
    ensures ScaledGradients(gx, gy, magnitude, direction, maxMag, sqrt, atan2)
    ensures maxMag == 0.0 || exists y, x :: 0 <= y < gx.Length0 && 0 <= x < gx.Length1 && MagnitudeAt(gx, gy, y, x, sqrt) == maxMag
    ensures AllZero(gx) && AllZero(gy) && sqrt(0.0) == 0.0 ==> AllZero(magnitude)
  {
    magnitude, direction, maxMag := ComputeGradients(gx, gy, sqrt, atan2);
    if AllZero(gx) && AllZero(gy) && sqrt(0.0) == 0.0 {
      ZeroGradientsHaveNoMagnitude(gx, gy, magnitude, sqrt);
    }
    if maxMag != 0.0 {
      ghost var wy, wx :| 0 <= wy < gx.Length0 && 0 <= wx < gx.Length1 && magnitude[wy, wx] == maxMag;
      assert MagnitudeAt(gx, gy, wy, wx, sqrt) == maxMag;
    }
    label unscaled:
    NormalizeMagnitude(magnitude, maxMag);
    forall y, x | 0 <= y < gx.Length0 && 0 <= x < gx.Length1
      ensures magnitude[y, x] == if maxMag > 0.0 then MagnitudeAt(gx, gy, y, x, sqrt) / maxMag else MagnitudeAt(gx, gy, y, x, sqrt)
    {
      assert old@unscaled(magnitude[y, x]) == MagnitudeAt(gx, gy, y, x, sqrt);
    }
  }

  /** Every cell of a real grid is 0. */
  predicate AllZero(a: array2<real>)
    reads a
  {
    forall y, x :: 0 <= y < a.Length0 && 0 <= x < a.Length1 ==> a[y, x] == 0.0
  }

  /** The blur of the detector keeps a flat image flat at the same gray, so
      both signed Sobel responses of the blurred image vanish. */
  lemma FlatImageHasNoGradients(img: array2<Color>, blurred: array2<Color>, gx: array2<real>, gy: array2<real>,
                                exp: real -> real)
    requires ValidImage(img) && (exists v :: Flat(img, v)) && Positive(exp)
    requires BlurOf(img, blurred, exp) && SobelOf(blurred, gx, gy)
    ensures AllZero(gx) && AllZero(gy)
  {
    var v :| Flat(img, v);
    LumaInUnit(img[0, 0]);
    forall x, y | 0 <= x < blurred.Length0 && 0 <= y < blurred.Length1
      ensures Luma(blurred[x, y]) == v
    {
      GaussianKeepsFlatImages(img, x, y, v, 5, 1.4, exp);
    }
    forall y, x | 0 <= y < gx.Length0 && 0 <= x < gx.Length1
      ensures gx[y, x] == 0.0 && gy[y, x] == 0.0
    {
      FlatImageHasNoSignedGradient(blurred, x, y, v);
    }
  }

  /** Zero gradients give zero magnitudes when the square root of 0 is 0. */
  lemma ZeroGradientsHaveNoMagnitude(gx: array2<real>, gy: array2<real>, magnitude: array2<real>, sqrt: real -> real)
    requires SameSize(gx, gy) && SameSize(magnitude, gx) && AllZero(gx) && AllZero(gy) && sqrt(0.0) == 0.0
    requires forall y, x :: 0 <= y < magnitude.Length0 && 0 <= x < magnitude.Length1 ==>
               magnitude[y, x] == MagnitudeAt(gx, gy, y, x, sqrt)
    ensures AllZero(magnitude)
  {
    forall y, x | 0 <= y < magnitude.Length0 && 0 <= x < magnitude.Length1
      ensures magnitude[y, x] == 0.0
    {
      assert GradientEnergy(gx, gy, y, x) == 0.0;
    }
  }

  /** Non-maximum suppression of all-zero magnitudes is all zero. */
  lemma NothingSurvivesZeroMagnitude(magnitude: array2<real>, direction: array2<real>, suppressed: array2<real>)
    requires SameSize(magnitude, direction) && SameSize(suppressed, magnitude) && AllZero(magnitude)
    requires forall y, x :: 0 <= y < suppressed.Length0 && 0 <= x < suppressed.Length1 ==>
               suppressed[y, x] == if Interior(y, x, suppressed.Length0, suppressed.Length1) then SuppressedAt(magnitude, direction, y, x) else 0.0
    ensures AllZero(suppressed)
  {
    forall y, x | 0 <= y < suppressed.Length0 && 0 <= x < suppressed.Length1
      ensures suppressed[y, x] == 0.0
    {
      if Interior(y, x, suppressed.Length0, suppressed.Length1) {
        SuppressionKeepsOrZeroes(magnitude, direction, y, x);
      }
    }
  }

  // ---------------------------------------------------------------------
  // The gradient read-back as written

  /** A Sobel response stored as a gray level in [0,1], read back as a signed
      gradient in [-1,1]: the read-back of the source. */
  function GradientReadout(c: Color): real {
    (c.r - 0.5) * 2.0
  }

  /** As written: the Sobel sums are clamped to [0,1] before being read back
      as (r - 0.5) * 2, so a flat image, whose Sobel sums are 0, reads back
      as the gradient (-1, -1) of squared magnitude 2 at every pixel. */
  lemma FlatImageGradientAsWritten(img: array2<Color>, x: int, y: int, v: real)
    requires 0 <= x < img.Length0 && 0 <= y < img.Length1 && Flat(img, v)
    ensures GradientReadout(ConvolvedPixel(img, SOBEL_X, x, y)) == -1.0
    ensures GradientReadout(ConvolvedPixel(img, SOBEL_Y, x, y)) == -1.0
  {
    SobelPair();
    FlatResponse(img, SOBEL_X, x, y, v);
    FlatResponse(img, SOBEL_Y, x, y, v);
  }

  /** Corrected: read unclamped, a flat image has zero gradient everywhere. */
  lemma FlatImageHasNoSignedGradient(img: array2<Color>, x: int, y: int, v: real)
    requires 0 <= x < img.Length0 && 0 <= y < img.Length1 && Flat(img, v)
    ensures SignedGradient(img, SOBEL_X, x, y) == 0.0 && SignedGradient(img, SOBEL_Y, x, y) == 0.0
  {
    SobelPair();
    FlatResponse(img, SOBEL_X, x, y, v);
    FlatResponse(img, SOBEL_Y, x, y, v);
  }
}
