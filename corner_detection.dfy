/** Edge and corner detectors built on convolution: the Kirsch compass
    maximum, the Frei-Chen edge-subspace ratio and the Harris corner
    response with its marking rule. Real-valued grids are indexed [y, x]. */
module CornerDetection {
  import opened Raster
  import opened ImageProcessing
  import opened Kernels
  import opened Convolution
  import opened Outcomes

  // ---------------------------------------------------------------------
  // Several convolutions of one image

  predicate AllWellFormed(ks: seq<Kernel>) {
    forall i :: 0 <= i < |ks| ==> WellFormed(ks[i])
  }

  /** The gray values of the convolutions of img with each kernel at (x, y). */
  function Responses(img: array2<Color>, ks: seq<Kernel>, x: int, y: int): (rs: seq<real>)
    reads img
    requires 0 <= x < img.Length0 && 0 <= y < img.Length1 && AllWellFormed(ks)
    ensures |rs| == |ks|
    ensures forall i :: 0 <= i < |rs| ==> InUnit(rs[i])
  {
    seq(|ks|, i requires 0 <= i < |ks| reads img => ConvolvedPixel(img, ks[i], x, y).r)
  }

  /** Every image of the list is width x height. */
  predicate Layers(cs: seq<array2<Color>>, width: int, height: int) {
    forall i :: 0 <= i < |cs| ==> cs[i].Length0 == width && cs[i].Length1 == height
  }

  /** The red channels at (x, y) of a list of images. */
  function Reds(cs: seq<array2<Color>>, width: int, height: int, x: int, y: int): (rs: seq<real>)
    reads set i | 0 <= i < |cs| :: cs[i]
    requires Layers(cs, width, height) && 0 <= x < width && 0 <= y < height
    ensures |rs| == |cs|
  {
    seq(|cs|, i requires 0 <= i < |cs| reads set j | 0 <= j < |cs| :: cs[j] => cs[i][x, y].r)
  }

  /** One convolution per kernel, in order. */
  method ConvolveAll(grayImage: array2<Color>, ks: seq<Kernel>) returns (cs: seq<array2<Color>>)
    requires ValidImage(grayImage) && AllWellFormed(ks)
    ensures |cs| == |ks| && Layers(cs, grayImage.Length0, grayImage.Length1)
    ensures forall i :: 0 <= i < |cs| ==> fresh(cs[i])
    ensures forall i, x, y :: 0 <= i < |cs| && 0 <= x < grayImage.Length0 && 0 <= y < grayImage.Length1 ==>
              cs[i][x, y] == ConvolvedPixel(grayImage, ks[i], x, y)
  {
    cs := [];
    for n := 0 to |ks|
      invariant |cs| == n && Layers(cs, grayImage.Length0, grayImage.Length1)
      invariant forall i :: 0 <= i < n ==> fresh(cs[i])
      invariant forall i, x, y :: 0 <= i < n && 0 <= x < grayImage.Length0 && 0 <= y < grayImage.Length1 ==>
                  cs[i][x, y] == ConvolvedPixel(grayImage, ks[i], x, y)
    {
      var c := Convolve(grayImage, ks[n]);
      cs := cs + [c];
    }
  }

  /** The red channels at (x, y) of the convolutions of the grayscale copy
      are the responses of the original image. */
  lemma RedsAreResponses(img: array2<Color>, grayImage: array2<Color>, ks: seq<Kernel>, cs: seq<array2<Color>>, x: int, y: int)
    requires SameSize(grayImage, img) && 0 <= x < img.Length0 && 0 <= y < img.Length1 && AllWellFormed(ks)
    requires forall i, j :: 0 <= i < img.Length0 && 0 <= j < img.Length1 ==> grayImage[i, j] == GrayscalePixel(img[i, j])
    requires |cs| == |ks| && Layers(cs, img.Length0, img.Length1)
    requires forall i :: 0 <= i < |cs| ==> cs[i][x, y] == ConvolvedPixel(grayImage, ks[i], x, y)
    ensures Reds(cs, img.Length0, img.Length1, x, y) == Responses(img, ks, x, y)
  {
    forall i | 0 <= i < |cs|
      ensures Reds(cs, img.Length0, img.Length1, x, y)[i] == Responses(img, ks, x, y)[i]
    {
      GrayscaleFirstChangesNothing(img, grayImage, ks[i], x, y);
    }
  }

  // ---------------------------------------------------------------------
  // Kirsch

  /** The running maximum of the responses, starting from 0. */
  function MaxResponse(rs: seq<real>): real
  {
    if |rs| == 0 then 0.0
    else
      var m := MaxResponse(rs[..|rs| - 1]);
      if rs[|rs| - 1] > m then rs[|rs| - 1] else m
  }

  /** The running maximum is max(0, the responses): at least 0 and every
      response, and either 0 or one of them; so it stays in [0, 1] when the
      responses do. */
  lemma {:induction false} MaxResponseIsMax(rs: seq<real>)
    ensures MaxResponse(rs) >= 0.0
    ensures forall i :: 0 <= i < |rs| ==> rs[i] <= MaxResponse(rs)
    ensures MaxResponse(rs) == 0.0 || exists i :: 0 <= i < |rs| && rs[i] == MaxResponse(rs)
    ensures (forall i :: 0 <= i < |rs| ==> rs[i] <= 1.0) ==> MaxResponse(rs) <= 1.0
  {
    if |rs| > 0 {
      var init := rs[..|rs| - 1];
      MaxResponseIsMax(init);
      assert forall i :: 0 <= i < |init| ==> init[i] == rs[i];
      if MaxResponse(init) != 0.0 && rs[|rs| - 1] <= MaxResponse(init) {
        var j :| 0 <= j < |init| && init[j] == MaxResponse(init);
        assert rs[j] == MaxResponse(rs);
      }
    }
  }

  /** The largest red channel at (x, y) over the list, or 0. */
  method MaxAt(cs: seq<array2<Color>>, ghost width: int, ghost height: int, x: int, y: int) returns (maxResponse: real)
    requires Layers(cs, width, height) && 0 <= x < width && 0 <= y < height
    ensures maxResponse == MaxResponse(Reds(cs, width, height, x, y))
  {
    ghost var rs := Reds(cs, width, height, x, y);
    maxResponse := 0.0;
    for i := 0 to |cs|
      invariant maxResponse == MaxResponse(rs[..i])
    {
      assert rs[..i + 1][..i] == rs[..i];
      var response := cs[i][x, y].r;
      if response > maxResponse {
        maxResponse := response;
      }
    }
    assert rs[..|cs|] == rs;
  }

  lemma KirschWellFormed()
    ensures |KIRSCH_ALL| == 8 && AllWellFormed(KIRSCH_ALL)
  {
    KirschMasksAreRotations();
  }

  function KirschResponses(img: array2<Color>, x: int, y: int): (rs: seq<real>)
    reads img
    requires 0 <= x < img.Length0 && 0 <= y < img.Length1
    ensures |rs| == 8
  {
    KirschWellFormed();
    Responses(img, KIRSCH_ALL, x, y)
  }

  /** The Kirsch value of one pixel, read from the eight convolutions of the
      grayscale copy. */
  method KirschAt(img: array2<Color>, grayImage: array2<Color>, convolutions: seq<array2<Color>>, x: int, y: int)
    returns (maxResponse: real)
    requires SameSize(grayImage, img) && 0 <= x < img.Length0 && 0 <= y < img.Length1
    requires forall i, j :: 0 <= i < img.Length0 && 0 <= j < img.Length1 ==> grayImage[i, j] == GrayscalePixel(img[i, j])
    requires |convolutions| == 8 && Layers(convolutions, img.Length0, img.Length1)
    requires forall i :: 0 <= i < 8 ==> convolutions[i][x, y] == ConvolvedPixel(grayImage, KIRSCH_ALL[i], x, y)
    ensures maxResponse == KirschValue(img, x, y)
  {
    KirschWellFormed();
    maxResponse := MaxAt(convolutions, img.Length0, img.Length1, x, y);
    RedsAreResponses(img, grayImage, KIRSCH_ALL, convolutions, x, y);
  }

  /** The largest of the eight compass responses at (x, y), or 0. */
  function KirschValue(img: array2<Color>, x: int, y: int): (v: real)
    reads img
    requires 0 <= x < img.Length0 && 0 <= y < img.Length1
    ensures InUnit(v)
  {
    MaxResponseIsMax(KirschResponses(img, x, y));
    MaxResponse(KirschResponses(img, x, y))
  }

  /** The Kirsch value is max(0, the eight responses): no response exceeds
      it, and it is either 0 or one of the responses. */
  lemma KirschValueIsMax(img: array2<Color>, x: int, y: int)
    requires 0 <= x < img.Length0 && 0 <= y < img.Length1
    ensures forall i :: 0 <= i < 8 ==> KirschResponses(img, x, y)[i] <= KirschValue(img, x, y)
    ensures KirschValue(img, x, y) == 0.0 ||
            exists i :: 0 <= i < 8 && KirschResponses(img, x, y)[i] == KirschValue(img, x, y)
  {
    MaxResponseIsMax(KirschResponses(img, x, y));
  }

  /** Each output pixel is the gray of the largest of the eight compass
      responses (each already clamped to [0, 1]), or black. */
  method ApplyKirsch(img: array2<Color>) returns (out: array2<Color>)
    requires ValidImage(img)
    ensures fresh(out) && SameSize(out, img) && ValidImage(out)
    ensures forall x, y :: 0 <= x < out.Length0 && 0 <= y < out.Length1 ==>
              out[x, y] == GrayColor(KirschValue(img, x, y))
  {
    KirschWellFormed();
    var grayImage := ConvertToGrayscale(img);
    var convolutions := ConvolveAll(grayImage, KIRSCH_ALL);
    out := new Color[grayImage.Length0, grayImage.Length1];
    for y := 0 to out.Length1
      invariant Prepared(img, grayImage, KIRSCH_ALL, convolutions, out)
      invariant forall i, j :: 0 <= i < out.Length0 && 0 <= j < y ==> out[i, j] == GrayColor(KirschValue(img, i, j))
      modifies out
    {
      KirschRow(img, grayImage, convolutions, out, y);
    }
  }

  /** What the pixel loops of a detector need: the grayscale copy, the
      convolutions of it with each mask, and a result image that is none of
      the images read. */
  predicate Prepared(img: array2<Color>, grayImage: array2<Color>, ks: seq<Kernel>,
                     convolutions: seq<array2<Color>>, out: array2<Color>)
    reads img, grayImage, set i | 0 <= i < |convolutions| :: convolutions[i]
  {
    SameSize(grayImage, img) && SameSize(out, img) && AllWellFormed(ks) &&
    (forall i, j :: 0 <= i < img.Length0 && 0 <= j < img.Length1 ==> grayImage[i, j] == GrayscalePixel(img[i, j])) &&
    |convolutions| == |ks| && Layers(convolutions, img.Length0, img.Length1) &&
    (forall i, x, y :: 0 <= i < |ks| && 0 <= x < img.Length0 && 0 <= y < img.Length1 ==>
       convolutions[i][x, y] == ConvolvedPixel(grayImage, ks[i], x, y)) &&
    out != img && out != grayImage && forall i :: 0 <= i < |convolutions| ==> convolutions[i] != out
  }

  /** Row y of ApplyKirsch; the other rows are left as they were. */
  method KirschRow(img: array2<Color>, grayImage: array2<Color>, convolutions: seq<array2<Color>>, out: array2<Color>, y: int)
    requires Prepared(img, grayImage, KIRSCH_ALL, convolutions, out) && 0 <= y < out.Length1
    modifies out
    ensures Prepared(img, grayImage, KIRSCH_ALL, convolutions, out)
    ensures forall i :: 0 <= i < out.Length0 ==> out[i, y] == GrayColor(KirschValue(img, i, y))
    ensures forall i, j :: 0 <= i < out.Length0 && 0 <= j < out.Length1 && j != y ==> out[i, j] == old(out[i, j])
  {
    for x := 0 to out.Length0
      invariant Prepared(img, grayImage, KIRSCH_ALL, convolutions, out)
      invariant forall i :: 0 <= i < x ==> out[i, y] == GrayColor(KirschValue(img, i, y))
      invariant forall i, j :: 0 <= i < out.Length0 && 0 <= j < out.Length1 && j != y ==> out[i, j] == old(out[i, j])
    {
      KirschSet(img, grayImage, convolutions, out, x, y);
    }
  }

  /** Pixel (x, y) of ApplyKirsch; every other pixel is left as it was. */
  method KirschSet(img: array2<Color>, grayImage: array2<Color>, convolutions: seq<array2<Color>>, out: array2<Color>,
                   x: int, y: int)
    requires Prepared(img, grayImage, KIRSCH_ALL, convolutions, out) && 0 <= x < out.Length0 && 0 <= y < out.Length1
    modifies out
    ensures Prepared(img, grayImage, KIRSCH_ALL, convolutions, out)
    ensures out[x, y] == GrayColor(KirschValue(img, x, y))
    ensures forall i, j :: 0 <= i < out.Length0 && 0 <= j < out.Length1 && (i, j) != (x, y) ==> out[i, j] == old(out[i, j])
  {
    KirschWellFormed();
    var maxResponse := KirschAt(img, grayImage, convolutions, x, y);
    out[x, y] := Color(maxResponse, maxResponse, maxResponse, 1.0);
  }

  // ---------------------------------------------------------------------
  // Frei-Chen

  /** The sum of squares of the responses. */
  function SquareSum(rs: seq<real>): real
  {
    if |rs| == 0 then 0.0 else SquareSum(rs[..|rs| - 1]) + rs[|rs| - 1] * rs[|rs| - 1]
  }

  lemma {:induction false} SquareSumNonNegative(rs: seq<real>)
    ensures SquareSum(rs) >= 0.0
  {
    if |rs| > 0 {
      SquareSumNonNegative(rs[..|rs| - 1]);
      assert rs[|rs| - 1] * rs[|rs| - 1] >= 0.0;
    }
  }

  /** Adding squares never decreases the sum: every prefix sum is between 0
      and the whole sum. */
  lemma {:induction false} SquareSumGrows(rs: seq<real>, n: nat)
    requires n <= |rs|
    ensures 0.0 <= SquareSum(rs[..n]) <= SquareSum(rs)
    decreases |rs| - n
  {
    SquareSumNonNegative(rs[..n]);
    if n < |rs| {
      SquareSumGrows(rs, n + 1);
      var next := rs[..n + 1];
      assert next[..n] == rs[..n];
      assert next[n] * next[n] >= 0.0;
    } else {
      assert rs[..n] == rs;
    }
  }

  /** Square roots supplied from outside are only assumed to keep [0, 1]. */
  ghost predicate UnitRoot(sqrt: real -> real) {
    forall t :: 0.0 <= t <= 1.0 ==> 0.0 <= sqrt(t) <= 1.0
  }

  /** The share of the energy in the four edge masks. */
  function EdgeShare(rs: seq<real>): real
    requires |rs| >= 4 && SquareSum(rs) > 0.0
  {
    SquareSum(rs[..4]) / SquareSum(rs)
  }

  /** The edge masks hold part of the total energy, so their share of a
      positive total is in [0, 1]. */
  lemma EdgeShareInUnit(rs: seq<real>)
    requires |rs| >= 4 && SquareSum(rs) > 0.0
    ensures InUnit(EdgeShare(rs))
  {
    SquareSumGrows(rs, 4);
    RatioInUnit(SquareSum(rs[..4]), SquareSum(rs));
  }

  /** The square root of the edge share, or 0 when there is no energy at all. */
  function FreiChenValue(rs: seq<real>, sqrt: real -> real): real
    requires |rs| >= 4
  {
    if SquareSum(rs) > 0.0 then sqrt(EdgeShare(rs)) else 0.0
  }

  /** With a square root that keeps [0, 1], the response is in [0, 1], and it
      is 0 when all nine responses are 0. */
  lemma FreiChenValueInUnit(rs: seq<real>, sqrt: real -> real)
    requires |rs| >= 4 && UnitRoot(sqrt)
    ensures InUnit(FreiChenValue(rs, sqrt))
    ensures (forall i :: 0 <= i < |rs| ==> rs[i] == 0.0) ==> FreiChenValue(rs, sqrt) == 0.0
  {
    if SquareSum(rs) > 0.0 {
      EdgeShareInUnit(rs);
      assert 0.0 <= sqrt(EdgeShare(rs)) <= 1.0;
    }
    if forall i :: 0 <= i < |rs| ==> rs[i] == 0.0 {
      AllZeroSquareSum(rs);
    }
  }

  lemma {:induction false} AllZeroSquareSum(rs: seq<real>)
    requires forall i :: 0 <= i < |rs| ==> rs[i] == 0.0
    ensures SquareSum(rs) == 0.0
  {
    if |rs| > 0 {
      AllZeroSquareSum(rs[..|rs| - 1]);
    }
  }

  /** The edge-subspace sum over the first four images and the total over
      all, then the square root of their ratio. */
  method FreiChenAt(cs: seq<array2<Color>>, ghost width: int, ghost height: int, x: int, y: int, sqrt: real -> real)
    returns (response: real)
    requires |cs| >= 4 && Layers(cs, width, height) && 0 <= x < width && 0 <= y < height
    ensures response == FreiChenValue(Reds(cs, width, height, x, y), sqrt)
  {
    ghost var rs := Reds(cs, width, height, x, y);
    var edgeSubspaceSum := 0.0;
    for i := 0 to 4
      invariant edgeSubspaceSum == SquareSum(rs[..i])
    {
      assert rs[..i + 1][..i] == rs[..i];
      var g := cs[i][x, y].r;
      assert rs[i] == g;
      edgeSubspaceSum := edgeSubspaceSum + g * g;
    }
    var totalSubspaceSum := 0.0;
    for i := 0 to |cs|
      invariant totalSubspaceSum == SquareSum(rs[..i])
    {
      assert rs[..i + 1][..i] == rs[..i];
      var g := cs[i][x, y].r;
      assert rs[i] == g;
      totalSubspaceSum := totalSubspaceSum + g * g;
    }
    assert rs[..|cs|] == rs;
    response := if totalSubspaceSum > 0.0 then sqrt(edgeSubspaceSum / totalSubspaceSum) else 0.0;
  }

  lemma FreiChenWellFormed()
    ensures |FREI_CHEN_ALL| == 9 && AllWellFormed(FREI_CHEN_ALL)
  {
    FreiChenMasksOrthogonalToMean();
  }

  /** The Frei-Chen value of pixel (x, y) for a list of masks whose first
      four span the edge subspace; in [0, 1]. */
  function FreiChenOf(img: array2<Color>, ks: seq<Kernel>, x: int, y: int, sqrt: real -> real): real
    reads img
    requires 0 <= x < img.Length0 && 0 <= y < img.Length1 && |ks| >= 4 && AllWellFormed(ks)
  {
    FreiChenValue(Responses(img, ks, x, y), sqrt)
  }

  /** The output pixel: an opaque gray of the Frei-Chen value. */
  function FreiChenColor(img: array2<Color>, ks: seq<Kernel>, x: int, y: int, sqrt: real -> real): Color
    reads img
    requires 0 <= x < img.Length0 && 0 <= y < img.Length1 && |ks| >= 4 && AllWellFormed(ks)
  {
    var v := FreiChenOf(img, ks, x, y, sqrt);
    Color(v, v, v, 1.0)
  }

  /** The Frei-Chen value of pixel (x, y) with the nine Frei-Chen masks. */
  function FreiChenResponse(img: array2<Color>, x: int, y: int, sqrt: real -> real): (v: real)
    reads img
    requires 0 <= x < img.Length0 && 0 <= y < img.Length1 && UnitRoot(sqrt)
    ensures InUnit(v)
  {
    FreiChenWellFormed();
    FreiChenValueInUnit(Responses(img, FREI_CHEN_ALL, x, y), sqrt);
    FreiChenOf(img, FREI_CHEN_ALL, x, y, sqrt)
  }

  /** The Frei-Chen value of one pixel, read from the convolutions of the
      grayscale copy with each mask. */
  method FreiChenPixel(img: array2<Color>, grayImage: array2<Color>, ghost ks: seq<Kernel>, convolutions: seq<array2<Color>>,
                       x: int, y: int, sqrt: real -> real)
    returns (response: real)
    requires SameSize(grayImage, img) && 0 <= x < img.Length0 && 0 <= y < img.Length1 && UnitRoot(sqrt)
    requires forall i, j :: 0 <= i < img.Length0 && 0 <= j < img.Length1 ==> grayImage[i, j] == GrayscalePixel(img[i, j])
    requires |ks| >= 4 && AllWellFormed(ks) && |convolutions| == |ks| && Layers(convolutions, img.Length0, img.Length1)
    requires forall i :: 0 <= i < |ks| ==> convolutions[i][x, y] == ConvolvedPixel(grayImage, ks[i], x, y)
    ensures response == FreiChenOf(img, ks, x, y, sqrt)
    ensures InUnit(response)
  {
    response := FreiChenAt(convolutions, img.Length0, img.Length1, x, y, sqrt);
    RedsAreResponses(img, grayImage, ks, convolutions, x, y);
    FreiChenValueInUnit(Responses(img, ks, x, y), sqrt);
  }

  /** Each output pixel is the gray of the Frei-Chen value of the nine mask
      responses. */
  method ApplyFreiChen(img: array2<Color>, sqrt: real -> real) returns (out: array2<Color>)
    requires ValidImage(img) && UnitRoot(sqrt)
    ensures fresh(out) && SameSize(out, img) && ValidImage(out)
    ensures forall x, y :: 0 <= x < out.Length0 && 0 <= y < out.Length1 ==>
              out[x, y] == GrayColor(FreiChenResponse(img, x, y, sqrt))
  {
    FreiChenWellFormed();
    var grayImage := ConvertToGrayscale(img);
    var convolutions := ConvolveAll(grayImage, FREI_CHEN_ALL);
    out := new Color[grayImage.Length0, grayImage.Length1];
    for y := 0 to out.Length1
      invariant Prepared(img, grayImage, FREI_CHEN_ALL, convolutions, out)
      invariant forall i, j :: 0 <= i < out.Length0 && 0 <= j < y ==>
                  out[i, j] == GrayColor(FreiChenResponse(img, i, j, sqrt))
      modifies out
    {
      FreiChenRow(img, grayImage, FREI_CHEN_ALL, convolutions, out, y, sqrt);
    }
  }

  /** Row y of ApplyFreiChen; the other rows are left as they were. */
  method FreiChenRow(img: array2<Color>, grayImage: array2<Color>, ghost ks: seq<Kernel>, convolutions: seq<array2<Color>>,
                     out: array2<Color>, y: int, sqrt: real -> real)
    requires Prepared(img, grayImage, ks, convolutions, out) && |ks| >= 4 && 0 <= y < out.Length1 && UnitRoot(sqrt)
    modifies out
    ensures Prepared(img, grayImage, ks, convolutions, out)
    ensures forall i :: 0 <= i < out.Length0 ==> out[i, y] == FreiChenColor(img, ks, i, y, sqrt)
    ensures forall i, j :: 0 <= i < out.Length0 && 0 <= j < out.Length1 && j != y ==> out[i, j] == old(out[i, j])
  {
    for x := 0 to out.Length0
      invariant forall i :: 0 <= i < x ==> out[i, y] == FreiChenColor(img, ks, i, y, sqrt)
      invariant forall i, j :: 0 <= i < out.Length0 && 0 <= j < out.Length1 && j != y ==> out[i, j] == old(out[i, j])
      invariant Prepared(img, grayImage, ks, convolutions, out)
    {
      FreiChenSet(img, grayImage, ks, convolutions, out, x, y, sqrt);
    }
  }

  /** Pixel (x, y) of ApplyFreiChen; every other pixel is left as it was. */
  method FreiChenSet(img: array2<Color>, grayImage: array2<Color>, ghost ks: seq<Kernel>, convolutions: seq<array2<Color>>,
                     out: array2<Color>, x: int, y: int, sqrt: real -> real)
    requires Prepared(img, grayImage, ks, convolutions, out) && |ks| >= 4 && 0 <= x < out.Length0 && 0 <= y < out.Length1 && UnitRoot(sqrt)
    modifies out
    ensures Prepared(img, grayImage, ks, convolutions, out)
    ensures out[x, y] == FreiChenColor(img, ks, x, y, sqrt)
    ensures forall i, j :: 0 <= i < out.Length0 && 0 <= j < out.Length1 && (i, j) != (x, y) ==> out[i, j] == old(out[i, j])
  {
    var response := FreiChenPixel(img, grayImage, ks, convolutions, x, y, sqrt);
    out[x, y] := Color(response, response, response, 1.0);
  }

  // ---------------------------------------------------------------------
  // Gaussian window over a real grid

  /** One product of the window sum at (x, y), coordinates clamped into the grid. */
  function WindowTap(data: array2<real>, k: Kernel, x: int, y: int, ky: int, kx: int): real
    reads data
    requires 0 <= y < data.Length0 && 0 <= x < data.Length1
    requires IsSquare(k, |k|) && 0 <= ky < |k| && 0 <= kx < |k|
  {
    var half := |k| / 2;
    var pixelX := ClampIndex(x + (kx - half), 0, data.Length1 - 1);
    var pixelY := ClampIndex(y + (ky - half), 0, data.Length0 - 1);
    data[pixelY, pixelX] * k[ky][kx]
  }

  function WindowRow(data: array2<real>, k: Kernel, x: int, y: int, ky: int, n: nat): real
    reads data
    requires 0 <= y < data.Length0 && 0 <= x < data.Length1
    requires IsSquare(k, |k|) && 0 <= ky < |k| && n <= |k|
  {
    if n == 0 then 0.0 else WindowRow(data, k, x, y, ky, n - 1) + WindowTap(data, k, x, y, ky, n - 1)
  }

  function WindowSum(data: array2<real>, k: Kernel, x: int, y: int, m: nat): real
    reads data
    requires 0 <= y < data.Length0 && 0 <= x < data.Length1
    requires IsSquare(k, |k|) && m <= |k|
  {
    if m == 0 then 0.0 else WindowSum(data, k, x, y, m - 1) + WindowRow(data, k, x, y, m - 1, |k|)
  }

  /** The window sum at one cell. */
  method WindowAt(data: array2<real>, kernel: array2<real>, ghost k: Kernel, x: int, y: int) returns (sum: real)
    requires 0 <= y < data.Length0 && 0 <= x < data.Length1 && IsSquare(k, |k|)
    requires kernel.Length0 == kernel.Length1 == |k|
    requires forall i, j :: 0 <= i < |k| && 0 <= j < |k| ==> kernel[i, j] == k[i][j]
    ensures sum == WindowSum(data, k, x, y, |k|)
  {
    var width, height := data.Length1, data.Length0;
    var size := kernel.Length0;
    var kernelHalf := size / 2;
    sum := 0.0;
    for ky := 0 to size
      invariant sum == WindowSum(data, k, x, y, ky)
    {
      for kx := 0 to size
        invariant sum == WindowSum(data, k, x, y, ky) + WindowRow(data, k, x, y, ky, kx)
      {
        var pixelX := ClampIndex(x + (kx - kernelHalf), 0, width - 1);
        var pixelY := ClampIndex(y + (ky - kernelHalf), 0, height - 1);
        sum := sum + data[pixelY, pixelX] * kernel[ky, kx];
      }
    }
  }

  /** Smooths a real grid with the normalised Gaussian of the given odd size. */
  method ApplyGaussianWindow(data: array2<real>, size: int, sigma: real, exp: real -> real) returns (result: array2<real>)
    requires data.Length0 > 0 && size > 0 && size % 2 == 1 && sigma != 0.0 && Positive(exp)
    ensures fresh(result) && SameSize(result, data)
    ensures KernelTotal(RawGaussian(size, sigma, exp)) > 0.0
    ensures forall y, x :: 0 <= y < result.Length0 && 0 <= x < result.Length1 ==>
              result[y, x] == WindowSum(data, GaussianKernel(size, sigma, exp), x, y, size)
  {
    var created := CreateGaussianKernel(size, sigma, exp);
    var kernel := created.value;
    ghost var k := GaussianKernel(size, sigma, exp);
    var width, height := data.Length1, data.Length0;
    result := new real[height, width];
    for y := 0 to height
      invariant forall j, i :: 0 <= j < y && 0 <= i < width ==> result[j, i] == WindowSum(data, k, i, j, size)
      modifies result
    {
      WindowRowInto(data, kernel, k, result, y);
    }
  }

  /** Row y of ApplyGaussianWindow; the other rows are left as they were. */
  method WindowRowInto(data: array2<real>, kernel: array2<real>, ghost k: Kernel, result: array2<real>, y: int)
    requires 0 <= y < data.Length0 && IsSquare(k, |k|) && result != data && result != kernel
    requires result.Length0 == data.Length0 && result.Length1 == data.Length1
    requires kernel.Length0 == kernel.Length1 == |k|
    requires forall i, j :: 0 <= i < |k| && 0 <= j < |k| ==> kernel[i, j] == k[i][j]
    modifies result
    ensures forall i :: 0 <= i < result.Length1 ==> result[y, i] == WindowSum(data, k, i, y, |k|)
    ensures forall j, i :: 0 <= j < result.Length0 && 0 <= i < result.Length1 && j != y ==>
              result[j, i] == old(result[j, i])
  {
    for x := 0 to data.Length1
      invariant forall i :: 0 <= i < x ==> result[y, i] == WindowSum(data, k, i, y, |k|)
      invariant forall j, i :: 0 <= j < result.Length0 && 0 <= i < result.Length1 && j != y ==>
                  result[j, i] == old(result[j, i])
    {
      var sum := WindowAt(data, kernel, k, x, y);
      result[y, x] := sum;
    }
  }

  /** Every cell of the grid holds v. */
  predicate Constant(data: array2<real>, v: real)
    reads data
  {
    forall y, x :: 0 <= y < data.Length0 && 0 <= x < data.Length1 ==> data[y, x] == v
  }

  /** On constant data every product is the constant times its cell. */
  lemma ConstantTap(data: array2<real>, k: Kernel, x: int, y: int, ky: int, kx: int, v: real)
    requires 0 <= y < data.Length0 && 0 <= x < data.Length1
    requires IsSquare(k, |k|) && 0 <= ky < |k| && 0 <= kx < |k| && Constant(data, v)
    ensures WindowTap(data, k, x, y, ky, kx) == v * k[ky][kx]
  {
    var half := |k| / 2;
    var pixelX := ClampIndex(x + (kx - half), 0, data.Length1 - 1);
    var pixelY := ClampIndex(y + (ky - half), 0, data.Length0 - 1);
    assert data[pixelY, pixelX] == v;
  }

  lemma {:induction false} ConstantWindowRow(data: array2<real>, k: Kernel, x: int, y: int, ky: int, n: nat, v: real)
    requires 0 <= y < data.Length0 && 0 <= x < data.Length1
    requires IsSquare(k, |k|) && 0 <= ky < |k| && n <= |k| && Constant(data, v)
    ensures WindowRow(data, k, x, y, ky, n) == v * RowTotal(k[ky][..n])
  {
    if n > 0 {
      var row := k[ky][..n];
      var before, w := RowTotal(k[ky][..n - 1]), k[ky][n - 1];
      assert row[..n - 1] == k[ky][..n - 1];
      assert RowTotal(row) == before + w;
      var rest, tap := WindowRow(data, k, x, y, ky, n - 1), WindowTap(data, k, x, y, ky, n - 1);
      assert WindowRow(data, k, x, y, ky, n) == rest + tap;
      ConstantWindowRow(data, k, x, y, ky, n - 1, v);
      ConstantTap(data, k, x, y, ky, n - 1, v);
      Distribute(v, before, w);
    }
  }

  lemma {:induction false} ConstantWindowSum(data: array2<real>, k: Kernel, x: int, y: int, m: nat, v: real)
    requires 0 <= y < data.Length0 && 0 <= x < data.Length1
    requires IsSquare(k, |k|) && m <= |k| && Constant(data, v)
    ensures WindowSum(data, k, x, y, m) == v * KernelTotal(k[..m])
  {
    if m > 0 {
      var before, last := KernelTotal(k[..m - 1]), RowTotal(k[m - 1]);
      assert k[..m][..m - 1] == k[..m - 1];
      assert KernelTotal(k[..m]) == before + last;
      var rest, row := WindowSum(data, k, x, y, m - 1), WindowRow(data, k, x, y, m - 1, |k|);
      assert WindowSum(data, k, x, y, m) == rest + row;
      ConstantWindowSum(data, k, x, y, m - 1, v);
      ConstantWindowRow(data, k, x, y, m - 1, |k|, v);
      assert k[m - 1][..|k|] == k[m - 1];
      Distribute(v, before, last);
    }
  }

  /** The Gaussian window leaves constant data unchanged: its kernel sums to 1. */
  lemma GaussianWindowKeepsConstant(data: array2<real>, size: nat, sigma: real, exp: real -> real, x: int, y: int, v: real)
    requires 0 <= y < data.Length0 && 0 <= x < data.Length1 && Constant(data, v)
    requires sigma != 0.0 && KernelTotal(RawGaussian(size, sigma, exp)) != 0.0
    ensures IsSquare(GaussianKernel(size, sigma, exp), size)
    ensures WindowSum(data, GaussianKernel(size, sigma, exp), x, y, size) == v
  {
    var k := GaussianKernel(size, sigma, exp);
    GaussianKernelSumsToOne(size, sigma, exp);
    ConstantWindowSum(data, k, x, y, size, v);
    assert k[..size] == k;
  }

  // ---------------------------------------------------------------------
  // Harris

  /** The gradient read back from a Sobel image: red - 0.5. */
  function Centered(c: Color): real {
    c.r - 0.5
  }

  /** ix2, iy2 and ixy hold, at [y, x], the products of the read-back
      gradients of the two Sobel images at (x, y). */
  predicate GradientProductsOf(ixImage: array2<Color>, iyImage: array2<Color>, ix2: array2<real>, iy2: array2<real>, ixy: array2<real>)
    reads ixImage, iyImage, ix2, iy2, ixy
  {
    SameSize(ixImage, iyImage) && Transposed(ix2, ixImage) && SameSize(iy2, ix2) && SameSize(ixy, ix2) &&
    forall y, x :: 0 <= y < ix2.Length0 && 0 <= x < ix2.Length1 ==>
      ix2[y, x] == Centered(ixImage[x, y]) * Centered(ixImage[x, y]) &&
      iy2[y, x] == Centered(iyImage[x, y]) * Centered(iyImage[x, y]) &&
      ixy[y, x] == Centered(ixImage[x, y]) * Centered(iyImage[x, y])
  }

  /** The products of the gradients, each read back as red - 0.5. */
  method GradientProducts(ixImage: array2<Color>, iyImage: array2<Color>)
    returns (ix2: array2<real>, iy2: array2<real>, ixy: array2<real>)
    requires SameSize(ixImage, iyImage)
    ensures fresh(ix2) && fresh(iy2) && fresh(ixy)
    ensures ix2.Length0 == iy2.Length0 == ixy.Length0 == ixImage.Length1
    ensures ix2.Length1 == iy2.Length1 == ixy.Length1 == ixImage.Length0
    ensures GradientProductsOf(ixImage, iyImage, ix2, iy2, ixy)
  {
    var width, height := ixImage.Length0, ixImage.Length1;
    ix2 := new real[height, width];
    iy2 := new real[height, width];
    ixy := new real[height, width];
    for y := 0 to height
      invariant forall j, i :: 0 <= j < y && 0 <= i < width ==>
                  ix2[j, i] == Centered(ixImage[i, j]) * Centered(ixImage[i, j]) &&
                  iy2[j, i] == Centered(iyImage[i, j]) * Centered(iyImage[i, j]) &&
                  ixy[j, i] == Centered(ixImage[i, j]) * Centered(iyImage[i, j])
      modifies ix2, iy2, ixy
    {
      GradientProductsRow(ixImage, iyImage, ix2, iy2, ixy, y);
    }
  }

  /** Row y of GradientProducts; the other rows are left as they were. */
  method GradientProductsRow(ixImage: array2<Color>, iyImage: array2<Color>, ix2: array2<real>, iy2: array2<real>,
                             ixy: array2<real>, y: int)
    requires SameSize(ixImage, iyImage) && 0 <= y < ixImage.Length1
    requires ix2.Length0 == iy2.Length0 == ixy.Length0 == ixImage.Length1
    requires ix2.Length1 == iy2.Length1 == ixy.Length1 == ixImage.Length0
    requires ix2 != iy2 && ix2 != ixy && iy2 != ixy
    modifies ix2, iy2, ixy
    ensures forall i :: 0 <= i < ix2.Length1 ==>
              ix2[y, i] == Centered(ixImage[i, y]) * Centered(ixImage[i, y]) &&
              iy2[y, i] == Centered(iyImage[i, y]) * Centered(iyImage[i, y]) &&
              ixy[y, i] == Centered(ixImage[i, y]) * Centered(iyImage[i, y])
    ensures forall j, i :: 0 <= j < ix2.Length0 && 0 <= i < ix2.Length1 && j != y ==>
              ix2[j, i] == old(ix2[j, i]) && iy2[j, i] == old(iy2[j, i]) && ixy[j, i] == old(ixy[j, i])
  {
    for x := 0 to ixImage.Length0
      invariant forall i :: 0 <= i < x ==>
                  ix2[y, i] == Centered(ixImage[i, y]) * Centered(ixImage[i, y]) &&
                  iy2[y, i] == Centered(iyImage[i, y]) * Centered(iyImage[i, y]) &&
                  ixy[y, i] == Centered(ixImage[i, y]) * Centered(iyImage[i, y])
      invariant forall j, i :: 0 <= j < ix2.Length0 && 0 <= i < ix2.Length1 && j != y ==>
                  ix2[j, i] == old(ix2[j, i]) && iy2[j, i] == old(iy2[j, i]) && ixy[j, i] == old(ixy[j, i])
    {
      var ix := ixImage[x, y].r - 0.5;
      var iy := iyImage[x, y].r - 0.5;
      ix2[y, x] := ix * ix;
      iy2[y, x] := iy * iy;
      ixy[y, x] := ix * iy;
    }
  }

  /** The Harris measure det(M) - k trace(M)^2 of the structure tensor
      M = [[a, b], [b, c]]. */
  function HarrisMeasure(a: real, b: real, c: real, k: real): real {
    var det := (a * c) - (b * b);
    var trace := a + c;
    det - k * (trace * trace)
  }

  /** The measure separates the three cases it is built for, for 0 < k < 1/4:
      no gradient gives 0, a gradient of strength s along one axis only gives
      -k s^2, which is negative (an edge), and equal strength along both axes
      gives (1 - 4k) s^2, which is positive (a corner). */
  lemma HarrisClassifies(s: real, k: real)
    requires s > 0.0 && 0.0 < k < 0.25
    ensures HarrisMeasure(0.0, 0.0, 0.0, k) == 0.0
    ensures HarrisMeasure(s, 0.0, 0.0, k) == -k * (s * s) && k * (s * s) > 0.0
    ensures HarrisMeasure(s, 0.0, s, k) == (1.0 - 4.0 * k) * (s * s) && (1.0 - 4.0 * k) * (s * s) > 0.0
  {
  }

  /** The measure at every cell and the largest positive one, or 0. */
  method HarrisResponses(sIx2: array2<real>, sIy2: array2<real>, sIxy: array2<real>, k: real)
    returns (harrisResponse: array2<real>, maxR: real)
    requires SameSize(sIx2, sIy2) && SameSize(sIx2, sIxy)
    ensures fresh(harrisResponse) && SameSize(harrisResponse, sIx2)
    ensures forall y, x :: 0 <= y < harrisResponse.Length0 && 0 <= x < harrisResponse.Length1 ==>
              harrisResponse[y, x] == HarrisMeasure(sIx2[y, x], sIxy[y, x], sIy2[y, x], k) && harrisResponse[y, x] <= maxR
    ensures maxR >= 0.0
    ensures maxR == 0.0 || exists y, x :: 0 <= y < harrisResponse.Length0 && 0 <= x < harrisResponse.Length1 && harrisResponse[y, x] == maxR
  {
    var height, width := sIx2.Length0, sIx2.Length1;
    harrisResponse := new real[height, width];
    maxR := 0.0;
    ghost var wy, wx := 0, 0;
    for y := 0 to height
      invariant forall j, i :: 0 <= j < y && 0 <= i < width ==>
                  harrisResponse[j, i] == HarrisMeasure(sIx2[j, i], sIxy[j, i], sIy2[j, i], k) && harrisResponse[j, i] <= maxR
      invariant maxR >= 0.0
      invariant maxR == 0.0 || (0 <= wy < y && 0 <= wx < width && harrisResponse[wy, wx] == maxR)
    {
      var maxOut, column := HarrisRow(sIx2, sIy2, sIxy, harrisResponse, y, k, maxR);
      if maxOut != maxR {
        wy, wx := y, column;
      }
      maxR := maxOut;
    }
  }

  /** Fills row y of the responses and raises the running maximum, returning
      the column where a new maximum was found. */
  method HarrisRow(sIx2: array2<real>, sIy2: array2<real>, sIxy: array2<real>, harrisResponse: array2<real>,
                   y: int, k: real, maxIn: real)
    returns (maxOut: real, ghost column: int)
    requires SameSize(sIx2, sIy2) && SameSize(sIx2, sIxy) && SameSize(harrisResponse, sIx2) && 0 <= y < sIx2.Length0
    requires harrisResponse != sIx2 && harrisResponse != sIy2 && harrisResponse != sIxy
    modifies harrisResponse
    ensures forall i :: 0 <= i < sIx2.Length1 ==>
              harrisResponse[y, i] == HarrisMeasure(sIx2[y, i], sIxy[y, i], sIy2[y, i], k) && harrisResponse[y, i] <= maxOut
    ensures forall j, i :: 0 <= j < sIx2.Length0 && 0 <= i < sIx2.Length1 && j != y ==> harrisResponse[j, i] == old(harrisResponse[j, i])
    ensures maxOut >= maxIn
    ensures maxOut == maxIn || (0 <= column < sIx2.Length1 && harrisResponse[y, column] == maxOut)
  {
    maxOut := maxIn;
    column := 0;
    for x := 0 to sIx2.Length1
      invariant forall i :: 0 <= i < x ==>
                  harrisResponse[y, i] == HarrisMeasure(sIx2[y, i], sIxy[y, i], sIy2[y, i], k) && harrisResponse[y, i] <= maxOut
      invariant forall j, i :: 0 <= j < sIx2.Length0 && 0 <= i < sIx2.Length1 && j != y ==> harrisResponse[j, i] == old(harrisResponse[j, i])
      invariant maxOut >= maxIn
      invariant maxOut == maxIn || (0 <= column < x && harrisResponse[y, column] == maxOut)
    {
      var a, b, c := sIx2[y, x], sIxy[y, x], sIy2[y, x];
      var det := (a * c) - (b * b);
      var trace := a + c;
      var r := det - k * (trace * trace);
      harrisResponse[y, x] := r;
      if r > maxOut {
        maxOut := r;
        column := x;
      }
    }
  }

  /** No cell of the 3 x 3 neighbourhood is strictly greater than the centre. */
  predicate LocalMax(data: array2<real>, x: int, y: int)
    reads data
    requires 1 <= y < data.Length0 - 1 && 1 <= x < data.Length1 - 1
  {
    forall j, i :: y - 1 <= j <= y + 1 && x - 1 <= i <= x + 1 ==> data[j, i] <= data[y, x]
  }

  method IsLocalMax(data: array2<real>, x: int, y: int) returns (b: bool)
    requires 1 <= y < data.Length0 - 1 && 1 <= x < data.Length1 - 1
    ensures b <==> LocalMax(data, x, y)
  {
    var center := data[y, x];
    for ky := -1 to 2
      invariant forall j, i :: y - 1 <= j < y + ky && x - 1 <= i <= x + 1 ==> data[j, i] <= center
    {
      var row := y + ky;
      for kx := -1 to 2
        invariant forall j, i :: y - 1 <= j < y + ky && x - 1 <= i <= x + 1 ==> data[j, i] <= center
        invariant forall i :: x - 1 <= i < x + kx ==> data[row, i] <= center
      {
        if data[y + ky, x + kx] > center {
          return false;
        }
      }
    }
    return true;
  }

  /** The marked image: interior local maxima whose share of the largest
      response exceeds the threshold turn red; every other pixel is copied. */
  function CornerPixel(img: array2<Color>, response: array2<real>, maxR: real, threshold: real, x: int, y: int): Color
    reads img, response
    requires 0 <= x < img.Length0 && 0 <= y < img.Length1
    requires response.Length0 == img.Length1 && response.Length1 == img.Length0
  {
    if maxR > 0.0 && 1 <= y < img.Length1 - 1 && 1 <= x < img.Length0 - 1 &&
       response[y, x] / maxR > threshold && LocalMax(response, x, y)
    then RED
    else img[x, y]
  }

  /** A red pixel of the marked image is always an interior local maximum
      above the threshold; a border pixel, or any pixel when no response is
      positive, is the original one. */
  lemma CornerMarkingRule(img: array2<Color>, response: array2<real>, maxR: real, threshold: real, x: int, y: int)
    requires 0 <= x < img.Length0 && 0 <= y < img.Length1
    requires response.Length0 == img.Length1 && response.Length1 == img.Length0
    ensures CornerPixel(img, response, maxR, threshold, x, y) != img[x, y] ==>
              CornerPixel(img, response, maxR, threshold, x, y) == RED && maxR > 0.0 &&
              1 <= y < img.Length1 - 1 && 1 <= x < img.Length0 - 1 &&
              response[y, x] > threshold * maxR && LocalMax(response, x, y)
    ensures (maxR <= 0.0 || x == 0 || y == 0 || x == img.Length0 - 1 || y == img.Length1 - 1) ==>
              CornerPixel(img, response, maxR, threshold, x, y) == img[x, y]
  {
    if CornerPixel(img, response, maxR, threshold, x, y) != img[x, y] {
      var q := response[y, x] / maxR;
      assert q * maxR == response[y, x];
      assert (q - threshold) * maxR > 0.0;
    }
  }

  /** A copy of the image with the corners painted red. */
  method MarkCorners(img: array2<Color>, harrisResponse: array2<real>, maxR: real, threshold: real) returns (out: array2<Color>)
    requires harrisResponse.Length0 == img.Length1 && harrisResponse.Length1 == img.Length0
    ensures fresh(out) && SameSize(out, img)
    ensures forall x, y :: 0 <= x < out.Length0 && 0 <= y < out.Length1 ==>
              out[x, y] == CornerPixel(img, harrisResponse, maxR, threshold, x, y)
  {
    var width, height := img.Length0, img.Length1;
    out := new Color[width, height];
    for y := 0 to height
      invariant forall i, j :: 0 <= i < width && 0 <= j < y ==> out[i, j] == img[i, j]
      modifies out
    {
      for x := 0 to width
        invariant forall i, j :: 0 <= i < width && 0 <= j < y ==> out[i, j] == img[i, j]
        invariant forall i :: 0 <= i < x ==> out[i, y] == img[i, y]
        modifies out
      {
        out[x, y] := img[x, y];
      }
    }
    if maxR > 0.0 {
      for y := 1 to if height - 1 < 1 then 1 else height - 1
        invariant forall i, j :: 0 <= i < width && 0 <= j < height ==>
                    out[i, j] == if 1 <= j < y then CornerPixel(img, harrisResponse, maxR, threshold, i, j) else img[i, j]
        modifies out
      {
        for x := 1 to if width - 1 < 1 then 1 else width - 1
          invariant forall i, j :: 0 <= i < width && 0 <= j < height ==>
                      out[i, j] == if (1 <= j < y) || (j == y && 1 <= i < x) then CornerPixel(img, harrisResponse, maxR, threshold, i, j) else img[i, j]
          modifies out
        {
          if harrisResponse[y, x] / maxR > threshold {
            var isMax := IsLocalMax(harrisResponse, x, y);
            if isMax {
              out[x, y] := RED;
            }
          }
        }
      }
    }
  }

  /** The convolution of the grayscale copy of img with k, which reads as
      the convolution of img itself. */
  method SobelOfGray(img: array2<Color>, grayImage: array2<Color>, k: Kernel) returns (c: array2<Color>)
    requires ValidImage(img) && ValidImage(grayImage) && SameSize(grayImage, img) && WellFormed(k)
    requires forall i, j :: 0 <= i < img.Length0 && 0 <= j < img.Length1 ==> grayImage[i, j] == GrayscalePixel(img[i, j])
    ensures fresh(c) && SameSize(c, img)
    ensures forall x, y :: 0 <= x < img.Length0 && 0 <= y < img.Length1 ==> c[x, y] == ConvolvedPixel(img, k, x, y)
  {
    c := Convolve(grayImage, k);
    forall x, y | 0 <= x < img.Length0 && 0 <= y < img.Length1
      ensures c[x, y] == ConvolvedPixel(img, k, x, y)
    {
      GrayscaleFirstChangesNothing(img, grayImage, k, x, y);
    }
  }

  /** The first steps of Harris: the grayscale copy, its two Sobel images
      (returned alongside for the contract) and the products of their
      read-back gradients, as arrays indexed [y, x]. */
  method HarrisProducts(img: array2<Color>)
    returns (ix2: array2<real>, iy2: array2<real>, ixy: array2<real>, ghost ixImage: array2<Color>, ghost iyImage: array2<Color>)
    requires ValidImage(img)
    ensures fresh(ix2) && fresh(iy2) && fresh(ixy)
    ensures SameSize(ixImage, img) && SameSize(iyImage, img)
    ensures forall x, y :: 0 <= x < img.Length0 && 0 <= y < img.Length1 ==>
              ixImage[x, y] == ConvolvedPixel(img, SOBEL_X, x, y) && iyImage[x, y] == ConvolvedPixel(img, SOBEL_Y, x, y)
    ensures Transposed(ix2, img) && SameSize(iy2, ix2) && SameSize(ixy, ix2)
    ensures GradientProductsOf(ixImage, iyImage, ix2, iy2, ixy)
  {
    var grayImage := ConvertToGrayscale(img);
    var gx := SobelOfGray(img, grayImage, SOBEL_X);
    var gy := SobelOfGray(img, grayImage, SOBEL_Y);
    ix2, iy2, ixy := GradientProducts(gx, gy);
    ixImage, iyImage := gx, gy;
  }

  /** Harris corners: the gradient products are smoothed by a 5 x 5
      Gaussian window of sigma 1.5, the measure is taken at every pixel, and
      the corners are painted red on a copy of the image. The products, the
      response grid and its largest positive value are returned alongside
      for the contract. */
  method ApplyHarris(img: array2<Color>, k: real, threshold: real, exp: real -> real)
    returns (out: array2<Color>, ghost ixImage: array2<Color>, ghost iyImage: array2<Color>,
             ghost ix2: array2<real>, ghost iy2: array2<real>, ghost ixy: array2<real>,
             ghost harrisResponse: array2<real>, ghost maxR: real)
    requires ValidImage(img) && Positive(exp)
    ensures fresh(out) && SameSize(out, img)
    ensures SameSize(ixImage, img) && SameSize(iyImage, img)
    ensures forall x, y :: 0 <= x < img.Length0 && 0 <= y < img.Length1 ==>
              ixImage[x, y] == ConvolvedPixel(img, SOBEL_X, x, y) && iyImage[x, y] == ConvolvedPixel(img, SOBEL_Y, x, y)
    ensures Transposed(ix2, img) && SameSize(iy2, ix2) && SameSize(ixy, ix2) && SameSize(harrisResponse, ix2)
    ensures GradientProductsOf(ixImage, iyImage, ix2, iy2, ixy)
    ensures KernelTotal(RawGaussian(5, 1.5, exp)) > 0.0
    ensures forall y, x :: 0 <= y < harrisResponse.Length0 && 0 <= x < harrisResponse.Length1 ==>
              harrisResponse[y, x] == HarrisMeasure(WindowSum(ix2, GaussianKernel(5, 1.5, exp), x, y, 5),
                                                    WindowSum(ixy, GaussianKernel(5, 1.5, exp), x, y, 5),
                                                    WindowSum(iy2, GaussianKernel(5, 1.5, exp), x, y, 5), k)
    ensures maxR >= 0.0
    ensures forall y, x :: 0 <= y < harrisResponse.Length0 && 0 <= x < harrisResponse.Length1 ==> harrisResponse[y, x] <= maxR
    ensures maxR == 0.0 || exists y, x :: 0 <= y < harrisResponse.Length0 && 0 <= x < harrisResponse.Length1 && harrisResponse[y, x] == maxR
    ensures forall x, y :: 0 <= x < out.Length0 && 0 <= y < out.Length1 ==>
              out[x, y] == CornerPixel(img, harrisResponse, maxR, threshold, x, y)
  {
    var pIx2, pIy2, pIxy;
    pIx2, pIy2, pIxy, ixImage, iyImage := HarrisProducts(img);
    var sIx2 := ApplyGaussianWindow(pIx2, 5, 1.5, exp);
    var sIy2 := ApplyGaussianWindow(pIy2, 5, 1.5, exp);
    var sIxy := ApplyGaussianWindow(pIxy, 5, 1.5, exp);
    var response, peak := HarrisResponses(sIx2, sIy2, sIxy, k);
    ix2, iy2, ixy, harrisResponse, maxR := pIx2, pIy2, pIxy, response, peak;
    out := MarkCorners(img, response, peak, threshold);
  }
}
