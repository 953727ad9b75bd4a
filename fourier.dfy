/** The Fourier engine: dimension validation, the radix-2 Cooley-Tukey
    transform and its inverse (one dimension, then rows and columns of a
    square grid), the quadrant swap of the spectrum, and the quantisation of
    the spectrum view and of the reconstructed image. Grids are indexed
    [y, x]; cosine, sine, square root and logarithm are supplied from
    outside. */
module Fourier {
  import opened Raster
  import opened ImageProcessing
  import opened ComplexNumbers
  import opened Outcomes
  import Kernels

  // ---------------------------------------------------------------------
  // Dimensions

  function IsPowerOfTwo(n: int): bool
    decreases n
  {
    n == 1 || (n >= 2 && n % 2 == 0 && IsPowerOfTwo(n / 2))
  }

  /** Bitwise and of two non-negative integers, bit by bit from the lowest. */
  function BitAnd(a: nat, b: nat): nat
    decreases a
  {
    if a == 0 || b == 0 then 0
    else 2 * BitAnd(a / 2, b / 2) + (if a % 2 == 1 && b % 2 == 1 then 1 else 0)
  }

  lemma {:induction false} BitAndSelf(a: nat)
    ensures BitAnd(a, a) == a
  {
    if a > 0 {
      BitAndSelf(a / 2);
    }
  }

  /** The test w & (w - 1) == 0 on a positive w holds exactly for the powers
      of two. */
  lemma {:induction false} PowerOfTwoBitTrick(w: nat)
    requires w > 0
    ensures BitAnd(w, w - 1) == 0 <==> IsPowerOfTwo(w)
  {
    if w > 1 {
      var m := w / 2;
      if w % 2 == 0 {
        assert (w - 1) / 2 == m - 1 && (w - 1) % 2 == 1;
        PowerOfTwoBitTrick(m);
      } else {
        assert (w - 1) / 2 == m && (w - 1) % 2 == 0;
        BitAndSelf(m);
      }
    }
  }

  /** A square image whose side is a positive power of two. */
  function IsValidDimensions(img: array2?<Color>): (b: bool)
    ensures b <==> img != null && img.Length0 == img.Length1 && IsPowerOfTwo(img.Length0)
  {
    if img == null then false
    else
      var width, height := img.Length0, img.Length1;
      if width != height then false
      else if width <= 0 then false
      else PowerOfTwoBitTrick(width); BitAnd(width, width - 1) == 0
  }

  // ---------------------------------------------------------------------
  // One dimension

  function Evens(s: seq<Complex>): (r: seq<Complex>)
    ensures |r| == |s| / 2
  {
    seq(|s| / 2, i requires 0 <= i < |s| / 2 => s[2 * i])
  }

  function Odds(s: seq<Complex>): (r: seq<Complex>)
    ensures |r| == |s| / 2
  {
    seq(|s| / 2, i requires 0 <= i < |s| / 2 => s[2 * i + 1])
  }

  /** The twiddle factor e^(-2 pi i k / n). */
  function Twiddle(k: int, n: int, cos: real -> real, sin: real -> real): Complex
    requires n > 0
  {
    var kth := (-2 * k) as real * Kernels.PI / n as real;
    Complex(cos(kth), sin(kth))
  }

  /** Combines the transforms of the even and the odd samples. */
  function Butterfly(q: seq<Complex>, r: seq<Complex>, cos: real -> real, sin: real -> real): (y: seq<Complex>)
    requires |q| == |r| > 0
    ensures |y| == 2 * |q|
  {
    var half := |q|;
    seq(2 * half, k requires 0 <= k < 2 * half =>
      if k < half then Plus(q[k], Times(Twiddle(k, 2 * half, cos, sin), r[k]))
      else Minus(q[k - half], Times(Twiddle(k - half, 2 * half, cos, sin), r[k - half])))
  }

  /** The radix-2 transform of a power-of-two number of samples. */
  function FftSpec(s: seq<Complex>, cos: real -> real, sin: real -> real): (r: seq<Complex>)
    requires IsPowerOfTwo(|s|)
    ensures |r| == |s|
    decreases |s|
  {
    if |s| == 1 then s
    else Butterfly(FftSpec(Evens(s), cos, sin), FftSpec(Odds(s), cos, sin), cos, sin)
  }

  function Conjugates(s: seq<Complex>): (r: seq<Complex>)
    ensures |r| == |s|
  {
    seq(|s|, i requires 0 <= i < |s| => Complex(s[i].re, -s[i].im))
  }

  /** Conjugates divided by n. */
  function ScaledConjugates(s: seq<Complex>, n: int): (r: seq<Complex>)
    requires n > 0
    ensures |r| == |s|
  {
    seq(|s|, i requires 0 <= i < |s| => Complex(s[i].re / n as real, -s[i].im / n as real))
  }

  /** The inverse: conjugate, transform, conjugate and divide by n. */
  function IfftSpec(s: seq<Complex>, cos: real -> real, sin: real -> real): (r: seq<Complex>)
    requires IsPowerOfTwo(|s|)
    ensures |r| == |s|
  {
    ScaledConjugates(FftSpec(Conjugates(s), cos, sin), |s|)
  }

  /** The samples at even and at odd positions, in two new arrays. */
  method Split(x: array<Complex>) returns (even: array<Complex>, odd: array<Complex>)
    ensures fresh(even) && fresh(odd)
    ensures even[..] == Evens(x[..]) && odd[..] == Odds(x[..])
  {
    var n := x.Length;
    even := new Complex[n / 2];
    odd := new Complex[n / 2];
    for i := 0 to n / 2
      invariant forall j :: 0 <= j < i ==> even[j] == x[2 * j] && odd[j] == x[2 * j + 1]
    {
      even[i] := x[2 * i];
      odd[i] := x[2 * i + 1];
    }
  }

  /** The butterflies over the two half-length transforms. */
  method Combine(q: array<Complex>, r: array<Complex>, cos: real -> real, sin: real -> real) returns (y: array<Complex>)
    requires q.Length == r.Length > 0
    ensures fresh(y) && y[..] == Butterfly(q[..], r[..], cos, sin)
  {
    var n := 2 * q.Length;
    ghost var spec := Butterfly(q[..], r[..], cos, sin);
    y := new Complex[n];
    for k := 0 to n / 2
      invariant forall j :: 0 <= j < k ==> y[j] == spec[j]
      invariant forall j :: n / 2 <= j < n / 2 + k ==> y[j] == spec[j]
    {
      var wk := Twiddle(k, n, cos, sin);
      y[k] := Plus(q[k], Times(wk, r[k]));
      y[k + n / 2] := Minus(q[k], Times(wk, r[k]));
      assert y[k] == spec[k] && y[k + n / 2] == spec[k + n / 2];
    }
  }

  method Fft1D(x: array<Complex>, cos: real -> real, sin: real -> real) returns (y: array<Complex>)
    requires IsPowerOfTwo(x.Length)
    ensures fresh(y) && y[..] == FftSpec(x[..], cos, sin)
    decreases x.Length
  {
    var n := x.Length;
    if n == 1 {
      var sample := x[0];
      y := new Complex[1](_ => sample);
      assert y[..] == x[..];
      return;
    }
    var even, odd := Split(x);
    var q := Fft1D(even, cos, sin);
    var r := Fft1D(odd, cos, sin);
    y := Combine(q, r, cos, sin);
  }

  method Ifft1D(x: array<Complex>, cos: real -> real, sin: real -> real) returns (y: array<Complex>)
    requires IsPowerOfTwo(x.Length)
    ensures fresh(y) && y[..] == IfftSpec(x[..], cos, sin)
  {
    var conjugated := Conjugate(x);
    y := Fft1D(conjugated, cos, sin);
    ScaleConjugate(y, x.Length);
  }

  /** The conjugates of the samples, in a new array. */
  method Conjugate(x: array<Complex>) returns (conjugated: array<Complex>)
    ensures fresh(conjugated) && conjugated[..] == Conjugates(x[..])
  {
    var n := x.Length;
    conjugated := new Complex[n];
    for i := 0 to n
      invariant forall j :: 0 <= j < i ==> conjugated[j] == Complex(x[j].re, -x[j].im)
    {
      conjugated[i] := Complex(GetReal(x[i]), -GetImag(x[i]));
    }
  }

  /** Conjugates every sample and divides it by n, in place. */
  method ScaleConjugate(y: array<Complex>, n: int)
    requires n > 0
    modifies y
    ensures y[..] == ScaledConjugates(old(y[..]), n)
  {
    ghost var t := y[..];
    for i := 0 to y.Length
      invariant forall j :: 0 <= j < i ==> y[j] == Complex(t[j].re / n as real, -t[j].im / n as real)
      invariant forall j :: i <= j < y.Length ==> y[j] == t[j]
    {
      y[i] := Complex(GetReal(y[i]) / n as real, -GetImag(y[i]) / n as real);
    }
  }

  /** Sum of the samples. */
  function Sum(s: seq<Complex>): Complex {
    if |s| == 0 then ZERO else Plus(Sum(s[..|s| - 1]), s[|s| - 1])
  }

  lemma {:induction false} SumSplit(s: seq<Complex>)
    requires |s| % 2 == 0
    ensures Sum(s) == Plus(Sum(Evens(s)), Sum(Odds(s)))
    decreases |s|
  {
    if |s| > 0 {
      var n := |s|;
      var t := s[..n - 2];
      var evens, odds := Evens(s), Odds(s);
      SumSplit(t);
      assert evens[..n / 2 - 1] == Evens(t);
      assert odds[..n / 2 - 1] == Odds(t);
      assert evens[n / 2 - 1] == s[n - 2] && odds[n / 2 - 1] == s[n - 1];
      assert Sum(evens) == Plus(Sum(Evens(t)), s[n - 2]);
      assert Sum(odds) == Plus(Sum(Odds(t)), s[n - 1]);
      assert s[..n - 1][..n - 2] == t;
      assert Sum(s) == Plus(Plus(Sum(t), s[n - 2]), s[n - 1]);
    }
  }

  /** Given cos 0 = 1 and sin 0 = 0, the first coefficient is the sum of the
      samples (the DC term). */
  lemma {:induction false} DcTermIsSum(s: seq<Complex>, cos: real -> real, sin: real -> real)
    requires IsPowerOfTwo(|s|) && cos(0.0) == 1.0 && sin(0.0) == 0.0
    ensures FftSpec(s, cos, sin)[0] == Sum(s)
    decreases |s|
  {
    if |s| == 1 {
      assert s[..0] == [];
    } else {
      var e, o := FftSpec(Evens(s), cos, sin), FftSpec(Odds(s), cos, sin);
      DcTermIsSum(Evens(s), cos, sin);
      DcTermIsSum(Odds(s), cos, sin);
      assert FftSpec(s, cos, sin) == Butterfly(e, o, cos, sin);
      ButterflyHead(e, o, cos, sin);
      SumSplit(s);
    }
  }

  /** Given cos 0 = 1 and sin 0 = 0, the first butterfly adds the two first
      coefficients. */
  lemma ButterflyHead(q: seq<Complex>, r: seq<Complex>, cos: real -> real, sin: real -> real)
    requires |q| == |r| > 0 && cos(0.0) == 1.0 && sin(0.0) == 0.0
    ensures Butterfly(q, r, cos, sin)[0] == Plus(q[0], r[0])
  {
    var w := Twiddle(0, 2 * |q|, cos, sin);
    assert w == ONE;
  }

  /** A single sample is its own transform and its own inverse. */
  lemma SingleSampleIsFixed(z: Complex, cos: real -> real, sin: real -> real)
    ensures FftSpec([z], cos, sin) == [z]
    ensures IfftSpec([z], cos, sin) == [z]
  {
    assert IsPowerOfTwo(1);
    var c := Conjugates([z]);
    assert FftSpec(c, cos, sin) == c;
  }

  /** Given cos 0 = 1 and sin 0 = 0, the inverse undoes the transform of two
      samples. */
  lemma TwoSampleRoundTrip(a: Complex, b: Complex, cos: real -> real, sin: real -> real)
    requires cos(0.0) == 1.0 && sin(0.0) == 0.0
    ensures IfftSpec(FftSpec([a, b], cos, sin), cos, sin) == [a, b]
  {
    assert IsPowerOfTwo(2) && IsPowerOfTwo(1);
    var s := [a, b];
    assert Evens(s) == [a] && Odds(s) == [b];
    assert Twiddle(0, 2, cos, sin) == ONE;
    assert FftSpec([a], cos, sin) == [a] && FftSpec([b], cos, sin) == [b];
    var f := FftSpec(s, cos, sin);
    assert f[0] == Plus(a, b) && f[1] == Minus(a, b);
    var c := Conjugates(f);
    assert Evens(c) == [c[0]] && Odds(c) == [c[1]];
    assert FftSpec([c[0]], cos, sin) == [c[0]] && FftSpec([c[1]], cos, sin) == [c[1]];
    var g := FftSpec(c, cos, sin);
    assert g[0] == Plus(c[0], c[1]) && g[1] == Minus(c[0], c[1]);
  }

  // ---------------------------------------------------------------------
  // Two dimensions

  type Grid = seq<seq<Complex>>

  predicate IsSquareGrid(g: Grid, n: nat) {
    |g| == n && forall y :: 0 <= y < n ==> |g[y]| == n
  }

  /** The grid held in an array indexed [y, x]. */
  function GridOf(a: array2<Complex>): (g: Grid)
    reads a
    ensures a.Length0 == a.Length1 ==> IsSquareGrid(g, a.Length0)
  {
    seq(a.Length0, y requires 0 <= y < a.Length0 reads a => seq(a.Length1, x requires 0 <= x < a.Length1 reads a => a[y, x]))
  }

  lemma GridOfPointwise(a: array2<Complex>, g: Grid)
    requires a.Length0 == a.Length1 && IsSquareGrid(g, a.Length0)
    requires forall y, x :: 0 <= y < a.Length0 && 0 <= x < a.Length0 ==> a[y, x] == g[y][x]
    ensures GridOf(a) == g
  {
    forall y | 0 <= y < a.Length0
      ensures GridOf(a)[y] == g[y]
    {
    }
  }

  function Transform(s: seq<Complex>, inverse: bool, cos: real -> real, sin: real -> real): (r: seq<Complex>)
    requires IsPowerOfTwo(|s|)
    ensures |r| == |s|
  {
    if inverse then IfftSpec(s, cos, sin) else FftSpec(s, cos, sin)
  }

  function RowsTransformed(g: Grid, n: nat, inverse: bool, cos: real -> real, sin: real -> real): (r: Grid)
    requires IsSquareGrid(g, n) && IsPowerOfTwo(n)
    ensures IsSquareGrid(r, n)
  {
    seq(n, y requires 0 <= y < n => Transform(g[y], inverse, cos, sin))
  }

  function Column(g: Grid, n: nat, x: int): (c: seq<Complex>)
    requires IsSquareGrid(g, n) && 0 <= x < n
    ensures |c| == n
  {
    seq(n, y requires 0 <= y < n => g[y][x])
  }

  function ColumnsTransformed(g: Grid, n: nat, inverse: bool, cos: real -> real, sin: real -> real): (r: Grid)
    requires IsSquareGrid(g, n) && IsPowerOfTwo(n)
    ensures IsSquareGrid(r, n)
  {
    seq(n, y requires 0 <= y < n => seq(n, x requires 0 <= x < n => Transform(Column(g, n, x), inverse, cos, sin)[y]))
  }

  /** Rows first, then columns. */
  function Transform2D(g: Grid, n: nat, inverse: bool, cos: real -> real, sin: real -> real): (r: Grid)
    requires IsSquareGrid(g, n) && IsPowerOfTwo(n)
    ensures IsSquareGrid(r, n)
  {
    ColumnsTransformed(RowsTransformed(g, n, inverse, cos, sin), n, inverse, cos, sin)
  }

  method Transform1D(x: array<Complex>, inverse: bool, cos: real -> real, sin: real -> real) returns (y: array<Complex>)
    requires IsPowerOfTwo(x.Length)
    ensures fresh(y) && y[..] == Transform(x[..], inverse, cos, sin)
  {
    if inverse {
      y := Ifft1D(x, cos, sin);
    } else {
      y := Fft1D(x, cos, sin);
    }
  }

  /** Replaces row y by its transform. */
  method TransformRow(data: array2<Complex>, y: int, inverse: bool, cos: real -> real, sin: real -> real)
    requires data.Length0 == data.Length1 && IsPowerOfTwo(data.Length1) && 0 <= y < data.Length0
    modifies data
    ensures forall x :: 0 <= x < data.Length1 ==> data[y, x] == Transform(old(GridOf(data))[y], inverse, cos, sin)[x]
    ensures forall j, x :: 0 <= j < data.Length0 && 0 <= x < data.Length1 && j != y ==> data[j, x] == old(data[j, x])
  {
    var row := CopyRow(data, y);
    var t := Transform1D(row, inverse, cos, sin);
    StoreRow(data, y, t);
  }

  /** Row y of the grid, in a new array. */
  method CopyRow(data: array2<Complex>, y: int) returns (row: array<Complex>)
    requires 0 <= y < data.Length0
    ensures fresh(row) && row[..] == GridOf(data)[y]
  {
    row := new Complex[data.Length1];
    for x := 0 to data.Length1
      invariant forall i :: 0 <= i < x ==> row[i] == data[y, i]
    {
      row[x] := data[y, x];
    }
  }

  /** Overwrites row y with the samples of t. */
  method StoreRow(data: array2<Complex>, y: int, t: array<Complex>)
    requires 0 <= y < data.Length0 && t.Length == data.Length1
    modifies data
    ensures forall x :: 0 <= x < data.Length1 ==> data[y, x] == t[x]
    ensures forall j, x :: 0 <= j < data.Length0 && 0 <= x < data.Length1 && j != y ==> data[j, x] == old(data[j, x])
  {
    for x := 0 to data.Length1
      invariant forall i :: 0 <= i < x ==> data[y, i] == t[i]
      invariant forall j, i :: 0 <= j < data.Length0 && 0 <= i < data.Length1 && j != y ==> data[j, i] == old(data[j, i])
    {
      data[y, x] := t[x];
    }
  }

  /** Replaces column x by its transform. */
  method TransformColumn(data: array2<Complex>, x: int, inverse: bool, cos: real -> real, sin: real -> real)
    requires data.Length0 == data.Length1 && IsPowerOfTwo(data.Length0) && 0 <= x < data.Length1
    modifies data
    ensures forall y :: 0 <= y < data.Length0 ==> data[y, x] == Transform(Column(old(GridOf(data)), data.Length0, x), inverse, cos, sin)[y]
    ensures forall y, i :: 0 <= y < data.Length0 && 0 <= i < data.Length1 && i != x ==> data[y, i] == old(data[y, i])
  {
    var column := CopyColumn(data, x);
    var t := Transform1D(column, inverse, cos, sin);
    StoreColumn(data, x, t);
  }

  /** Column x of a square grid, in a new array. */
  method CopyColumn(data: array2<Complex>, x: int) returns (column: array<Complex>)
    requires data.Length0 == data.Length1 && 0 <= x < data.Length1
    ensures fresh(column) && column[..] == Column(GridOf(data), data.Length0, x)
  {
    column := new Complex[data.Length0];
    for y := 0 to data.Length0
      invariant forall j :: 0 <= j < y ==> column[j] == data[j, x]
    {
      column[y] := data[y, x];
    }
  }

  /** Overwrites column x with the samples of t. */
  method StoreColumn(data: array2<Complex>, x: int, t: array<Complex>)
    requires 0 <= x < data.Length1 && t.Length == data.Length0
    modifies data
    ensures forall y :: 0 <= y < data.Length0 ==> data[y, x] == t[y]
    ensures forall y, i :: 0 <= y < data.Length0 && 0 <= i < data.Length1 && i != x ==> data[y, i] == old(data[y, i])
  {
    for y := 0 to data.Length0
      invariant forall j :: 0 <= j < y ==> data[j, x] == t[j]
      invariant forall j, i :: 0 <= j < data.Length0 && 0 <= i < data.Length1 && i != x ==> data[j, i] == old(data[j, i])
    {
      data[y, x] := t[y];
    }
  }

  /** Transforms every row, then every column, in place. */
  method Transform2DInPlace(data: array2<Complex>, inverse: bool, cos: real -> real, sin: real -> real)
    requires data.Length0 == data.Length1 && IsPowerOfTwo(data.Length0)
    modifies data
    ensures GridOf(data) == Transform2D(old(GridOf(data)), data.Length0, inverse, cos, sin)
  {
    var n := data.Length0;
    ghost var g := GridOf(data);
    ghost var rows := RowsTransformed(g, n, inverse, cos, sin);
    for y := 0 to n
      invariant forall j, i :: 0 <= j < n && 0 <= i < n ==> data[j, i] == if j < y then rows[j][i] else g[j][i]
    {
      assert GridOf(data)[y] == g[y];
      TransformRow(data, y, inverse, cos, sin);
    }
    GridOfPointwise(data, rows);
    ghost var target := ColumnsTransformed(rows, n, inverse, cos, sin);
    for x := 0 to n
      invariant forall j, i :: 0 <= j < n && 0 <= i < n ==> data[j, i] == if i < x then target[j][i] else rows[j][i]
    {
      assert Column(GridOf(data), n, x) == Column(rows, n, x);
      TransformColumn(data, x, inverse, cos, sin);
    }
    GridOfPointwise(data, target);
  }

  /** The samples the forward transform starts from: 255 times the gray
      level, with no imaginary part. */
  function Samples(img: array2<Color>): (g: Grid)
    reads img
    ensures img.Length0 == img.Length1 ==> IsSquareGrid(g, img.Length0)
  {
    seq(img.Length1, y requires 0 <= y < img.Length1 reads img =>
      seq(img.Length0, x requires 0 <= x < img.Length0 reads img => Complex(GrayscalePixel(img[x, y]).r * 255.0, 0.0)))
  }

  const INVALID_DIMENSIONS := "La imagen debe ser cuadrada y sus dimensiones una potencia de dos."

  method Fft(img: array2?<Color>, cos: real -> real, sin: real -> real) returns (r: Result<array2<Complex>>)
    ensures r.Failure? <==> !IsValidDimensions(img)
    ensures r.Success? ==>
              img != null && fresh(r.value) && r.value.Length0 == r.value.Length1 == img.Length0 &&
              GridOf(r.value) == Transform2D(Samples(img), img.Length0, false, cos, sin)
  {
    if !IsValidDimensions(img) {
      return Failure(INVALID_DIMENSIONS);
    }
    var n := img.Length0;
    var data := new Complex[n, n];
    for y := 0 to n
      invariant forall j, i :: 0 <= j < y && 0 <= i < n ==> data[j, i] == Samples(img)[j][i]
    {
      for x := 0 to n
        invariant forall j, i :: 0 <= j < y && 0 <= i < n ==> data[j, i] == Samples(img)[j][i]
        invariant forall i :: 0 <= i < x ==> data[y, i] == Samples(img)[y][i]
      {
        data[y, x] := Complex(GrayscalePixel(img[x, y]).r * 255.0, 0.0);
      }
    }
    GridOfPointwise(data, Samples(img));
    Transform2DInPlace(data, false, cos, sin);
    return Success(data);
  }

  // ---------------------------------------------------------------------
  // Reconstruction and spectrum view

  /** The gray level of a reconstructed value: clamped to [0, 255], then
      rounded half up. */
  function ReconstructedLevel(v: real): (n: int)
    ensures 0 <= n <= 255
    ensures 0.0 <= v <= 255.0 ==> n as real - 0.5 <= v < n as real + 0.5
  {
    Round(Clamp(v, 0.0, 255.0))
  }

  /** A fresh copy of a grid. */
  method CopyGrid(a: array2<Complex>) returns (b: array2<Complex>)
    ensures fresh(b) && SameSize(b, a)
    ensures forall y, x :: 0 <= y < b.Length0 && 0 <= x < b.Length1 ==> b[y, x] == a[y, x]
  {
    b := new Complex[a.Length0, a.Length1];
    for y := 0 to a.Length0
      invariant forall j, i :: 0 <= j < y && 0 <= i < a.Length1 ==> b[j, i] == a[j, i]
    {
      for x := 0 to a.Length1
        invariant forall j, i :: 0 <= j < y && 0 <= i < a.Length1 ==> b[j, i] == a[j, i]
        invariant forall i :: 0 <= i < x ==> b[y, i] == a[y, i]
      {
        b[y, x] := a[y, x];
      }
    }
  }

  /** The image of the real parts, each clamped and rounded to a gray level. */
  method Reconstruct(data: array2<Complex>) returns (out: array2<Color>)
    ensures fresh(out) && out.Length0 == data.Length1 && out.Length1 == data.Length0
    ensures forall x, y :: 0 <= x < out.Length0 && 0 <= y < out.Length1 ==>
              out[x, y] == GrayRgb(ReconstructedLevel(data[y, x].re))
  {
    var height, width := data.Length0, data.Length1;
    out := new Color[width, height];
    for y := 0 to height
      invariant forall i, j :: 0 <= i < width && 0 <= j < y ==> out[i, j] == GrayRgb(ReconstructedLevel(data[j, i].re))
    {
      for x := 0 to width
        invariant forall i, j :: 0 <= i < width && 0 <= j < y ==> out[i, j] == GrayRgb(ReconstructedLevel(data[j, i].re))
        invariant forall i :: 0 <= i < x ==> out[i, y] == GrayRgb(ReconstructedLevel(data[y, i].re))
      {
        var realVal := GetReal(data[y, x]);
        var gray := Round(Clamp(realVal, 0.0, 255.0));
        out[x, y] := GrayRgb(gray);
      }
    }
  }

  method InverseFft(frequencyDomain: array2<Complex>, cos: real -> real, sin: real -> real) returns (out: array2<Color>)
    requires frequencyDomain.Length0 == frequencyDomain.Length1 && IsPowerOfTwo(frequencyDomain.Length0)
    ensures fresh(out) && out.Length0 == out.Length1 == frequencyDomain.Length0
    ensures forall x, y :: 0 <= x < out.Length0 && 0 <= y < out.Length1 ==>
              out[x, y] == GrayRgb(ReconstructedLevel(Transform2D(GridOf(frequencyDomain), out.Length0, true, cos, sin)[y][x].re))
  {
    var n := frequencyDomain.Length0;
    var data := CopyGrid(frequencyDomain);
    GridOfPointwise(data, GridOf(frequencyDomain));
    Transform2DInPlace(data, true, cos, sin);
    out := Reconstruct(data);
  }

  /** The index a quadrant swap reads from. */
  function ShiftIndex(i: int, n: int): (j: int)
    requires n > 0
    ensures 0 <= j < n
  {
    (i + n / 2) % n
  }

  /** For an even side the swap is its own inverse, hence a permutation of
      the cells. */
  lemma ShiftIndexInvolution(i: int, n: int)
    requires n > 0 && n % 2 == 0 && 0 <= i < n
    ensures ShiftIndex(ShiftIndex(i, n), n) == i
  {
    var h := n / 2;
    assert h + h == n;
    ModInRange(i + h, n);
    ModInRange(ShiftIndex(i, n) + h, n);
  }

  /** The cell a quadrant swap sends to index j: the swap reaches every index,
      whatever the parity of the side. */
  function ShiftPreimage(j: int, n: int): (i: int)
    requires n > 0 && 0 <= j < n
    ensures 0 <= i < n && ShiftIndex(i, n) == j
  {
    var i := if j >= n / 2 then j - n / 2 else j + n - n / 2;
    ModInRange(i + n / 2, n);
    i
  }

  lemma ModInRange(a: int, n: int)
    requires n > 0 && 0 <= a < 2 * n
    ensures a % n == if a < n then a else a - n
  {
    if a < n {
      assert a == 0 * n + a;
    } else {
      assert a == 1 * n + (a - n);
    }
  }

  method FftShift(data: array2<Complex>) returns (shifted: array2<Complex>)
    requires data.Length0 == data.Length1 > 0
    ensures fresh(shifted) && shifted.Length0 == shifted.Length1 == data.Length0
    ensures forall y, x :: 0 <= y < shifted.Length0 && 0 <= x < shifted.Length1 ==>
              shifted[y, x] == data[ShiftIndex(y, data.Length0), ShiftIndex(x, data.Length0)]
  {
    var n := data.Length0;
    var half := n / 2;
    shifted := new Complex[n, n];
    for y := 0 to n
      invariant forall j, i :: 0 <= j < y && 0 <= i < n ==> shifted[j, i] == data[ShiftIndex(j, n), ShiftIndex(i, n)]
    {
      for x := 0 to n
        invariant forall j, i :: 0 <= j < y && 0 <= i < n ==> shifted[j, i] == data[ShiftIndex(j, n), ShiftIndex(i, n)]
        invariant forall i :: 0 <= i < x ==> shifted[y, i] == data[ShiftIndex(y, n), ShiftIndex(i, n)]
      {
        shifted[y, x] := data[(y + half) % n, (x + half) % n];
      }
    }
  }

  /** Shifting an even-sided grid twice gives it back. */
  lemma FftShiftTwiceIsIdentity(a: array2<Complex>, b: array2<Complex>, c: array2<Complex>)
    requires a.Length0 == a.Length1 > 0 && a.Length0 % 2 == 0
    requires b.Length0 == b.Length1 == a.Length0 && c.Length0 == c.Length1 == a.Length0
    requires forall y, x :: 0 <= y < b.Length0 && 0 <= x < b.Length1 ==> b[y, x] == a[ShiftIndex(y, a.Length0), ShiftIndex(x, a.Length0)]
    requires forall y, x :: 0 <= y < c.Length0 && 0 <= x < c.Length1 ==> c[y, x] == b[ShiftIndex(y, a.Length0), ShiftIndex(x, a.Length0)]
    ensures forall y, x :: 0 <= y < c.Length0 && 0 <= x < c.Length1 ==> c[y, x] == a[y, x]
  {
    var n := a.Length0;
    forall y, x | 0 <= y < n && 0 <= x < n
      ensures c[y, x] == a[y, x]
    {
      ShiftIndexInvolution(y, n);
      ShiftIndexInvolution(x, n);
    }
  }

  /** Logarithms supplied from outside are only assumed not to be negative
      from 1 upwards. */
  ghost predicate NonNegativeFromOne(log: real -> real) {
    forall t :: t >= 1.0 ==> log(t) >= 0.0
  }

  /** The gray level of one log-magnitude, scaled by the largest one. */
  function SpectrumLevel(m: real, maxMag: real): (n: int)
    requires maxMag > 0.0 && 0.0 <= m <= maxMag
    ensures 0 <= n <= 255
    ensures m == maxMag ==> n == 255
  {
    assert m / maxMag * maxMag == m;
    Trunc(255.0 * (m / maxMag))
  }

  function LogMagnitude(z: Complex, sqrt: real -> real, log: real -> real): real {
    log(1.0 + Magnitude(z, sqrt))
  }

  /** The log-magnitudes of the shifted spectrum and their maximum, or 0 when
      none is positive. */
  method LogMagnitudes(shifted: array2<Complex>, sqrt: real -> real, log: real -> real)
    returns (magnitudes: array2<real>, maxMag: real)
    requires shifted.Length0 == shifted.Length1
    ensures fresh(magnitudes) && SameSize(magnitudes, shifted)
    ensures forall y, x :: 0 <= y < magnitudes.Length0 && 0 <= x < magnitudes.Length1 ==>
              magnitudes[y, x] == LogMagnitude(shifted[y, x], sqrt, log) && magnitudes[y, x] <= maxMag
    ensures maxMag >= 0.0
    ensures maxMag == 0.0 || exists y, x :: 0 <= y < magnitudes.Length0 && 0 <= x < magnitudes.Length1 && magnitudes[y, x] == maxMag
  {
    var n := shifted.Length0;
    magnitudes := new real[n, n];
    maxMag := 0.0;
    ghost var wy, wx := 0, 0;
    for y := 0 to n
      invariant forall j, i :: 0 <= j < y && 0 <= i < n ==>
                  magnitudes[j, i] == LogMagnitude(shifted[j, i], sqrt, log) && magnitudes[j, i] <= maxMag
      invariant maxMag >= 0.0
      invariant maxMag == 0.0 || (0 <= wy < y && 0 <= wx < n && magnitudes[wy, wx] == maxMag)
    {
      for x := 0 to n
        invariant forall j, i :: 0 <= j < y && 0 <= i < n ==>
                    magnitudes[j, i] == LogMagnitude(shifted[j, i], sqrt, log) && magnitudes[j, i] <= maxMag
        invariant forall i :: 0 <= i < x ==> magnitudes[y, i] == LogMagnitude(shifted[y, i], sqrt, log) && magnitudes[y, i] <= maxMag
        invariant maxMag >= 0.0
        invariant maxMag == 0.0 || (0 <= wy <= y && 0 <= wx < n && (wy < y || wx < x) && magnitudes[wy, wx] == maxMag)
      {
        magnitudes[y, x] := log(1.0 + Magnitude(shifted[y, x], sqrt));
        if magnitudes[y, x] > maxMag {
          maxMag := magnitudes[y, x];
          wy, wx := y, x;
        }
      }
    }
  }

  lemma LogMagnitudeNonNegative(z: Complex, sqrt: real -> real, log: real -> real)
    requires NonNegativeRoot(sqrt) && NonNegativeFromOne(log)
    ensures LogMagnitude(z, sqrt, log) >= 0.0
  {
    var t := 1.0 + Magnitude(z, sqrt);
    assert t >= 1.0;
    assert log(t) >= 0.0;
  }

  /** Gray levels of the log-magnitudes scaled by their maximum. */
  method Quantize(magnitudes: array2<real>, maxMag: real) returns (out: array2<Color>)
    requires maxMag > 0.0
    requires forall y, x :: 0 <= y < magnitudes.Length0 && 0 <= x < magnitudes.Length1 ==> 0.0 <= magnitudes[y, x] <= maxMag
    ensures fresh(out) && out.Length0 == magnitudes.Length1 && out.Length1 == magnitudes.Length0
    ensures forall x, y :: 0 <= x < out.Length0 && 0 <= y < out.Length1 ==> out[x, y] == GrayRgb(SpectrumLevel(magnitudes[y, x], maxMag))
  {
    var height, width := magnitudes.Length0, magnitudes.Length1;
    out := new Color[width, height];
    for y := 0 to height
      invariant forall i, j :: 0 <= i < width && 0 <= j < y ==> out[i, j] == GrayRgb(SpectrumLevel(magnitudes[j, i], maxMag))
    {
      for x := 0 to width
        invariant forall i, j :: 0 <= i < width && 0 <= j < y ==> out[i, j] == GrayRgb(SpectrumLevel(magnitudes[j, i], maxMag))
        invariant forall i :: 0 <= i < x ==> out[i, y] == GrayRgb(SpectrumLevel(magnitudes[y, i], maxMag))
      {
        var gray := SpectrumLevel(magnitudes[y, x], maxMag);
        out[x, y] := GrayRgb(gray);
      }
    }
  }

  /** The centred spectrum as an image: log(1 + |z|) of every coefficient,
      quadrants swapped, scaled by the largest value (or by 1 when every
      value is 0) and truncated to a gray level. */
  method GetSpectrumView(frequencyDomain: array2<Complex>, sqrt: real -> real, log: real -> real)
    returns (out: array2<Color>, ghost scale: real)
    requires frequencyDomain.Length0 == frequencyDomain.Length1 > 0
    requires NonNegativeRoot(sqrt) && NonNegativeFromOne(log)
    ensures fresh(out) && out.Length0 == out.Length1 == frequencyDomain.Length0
    ensures scale > 0.0
    ensures forall x, y :: 0 <= x < out.Length0 && 0 <= y < out.Length1 ==>
              var n := frequencyDomain.Length0;
              var m := LogMagnitude(frequencyDomain[ShiftIndex(y, n), ShiftIndex(x, n)], sqrt, log);
              0.0 <= m <= scale && out[x, y] == GrayRgb(SpectrumLevel(m, scale))
    ensures (scale == 1.0 && forall y, x :: 0 <= y < frequencyDomain.Length0 && 0 <= x < frequencyDomain.Length1 ==>
                               LogMagnitude(frequencyDomain[y, x], sqrt, log) == 0.0) ||
            exists y, x :: 0 <= y < frequencyDomain.Length0 && 0 <= x < frequencyDomain.Length1 &&
                           LogMagnitude(frequencyDomain[y, x], sqrt, log) == scale
  {
    var shifted := FftShift(frequencyDomain);
    var magnitudes, maxMag := LogMagnitudes(shifted, sqrt, log);
    ghost var peak := maxMag;
    if maxMag == 0.0 {
      maxMag := 1.0;
    }
    forall y, x | 0 <= y < magnitudes.Length0 && 0 <= x < magnitudes.Length1
      ensures 0.0 <= magnitudes[y, x]
    {
      LogMagnitudeNonNegative(shifted[y, x], sqrt, log);
    }
    scale := maxMag;
    out := Quantize(magnitudes, maxMag);
    var n := frequencyDomain.Length0;
    forall x, y | 0 <= x < n && 0 <= y < n
      ensures magnitudes[y, x] == LogMagnitude(frequencyDomain[ShiftIndex(y, n), ShiftIndex(x, n)], sqrt, log)
    {
      assert shifted[y, x] == frequencyDomain[ShiftIndex(y, n), ShiftIndex(x, n)];
    }
    if peak == 0.0 {
      forall y, x | 0 <= y < n && 0 <= x < n
        ensures LogMagnitude(frequencyDomain[y, x], sqrt, log) == 0.0
      {
        var j, i := ShiftPreimage(y, n), ShiftPreimage(x, n);
        assert shifted[j, i] == frequencyDomain[y, x];
      }
    } else {
      var wy, wx :| 0 <= wy < n && 0 <= wx < n && magnitudes[wy, wx] == peak;
      assert shifted[wy, wx] == frequencyDomain[ShiftIndex(wy, n), ShiftIndex(wx, n)];
    }
  }
}
