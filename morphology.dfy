/** Binary morphology over a square window whose out-of-bounds part is
    ignored (erode, dilate, open, close), and salt-and-pepper noise with the
    random draws supplied by the caller. */
module Morphology {
  import opened Raster
  import opened ImageProcessing

  // ---------------------------------------------------------------------
  // Noise

  /** A pixel after the noise pass: replaced by the noise colour when its
      draw falls below the percentage. */
  function NoisyPixel(c: Color, draw: real, percentage: real, noiseColor: Color): Color {
    if draw < percentage then noiseColor else c
  }

  /** The draws are passed in, one per pixel, in the generator's row-major order. */
  method AddNoise(img: array2<Color>, percentage: real, noiseColor: Color, draws: array2<real>) returns (out: array2<Color>)
    requires SameSize(draws, img)
    ensures fresh(out) && SameSize(out, img)
    ensures forall x, y :: 0 <= x < out.Length0 && 0 <= y < out.Length1 ==>
              out[x, y] == NoisyPixel(img[x, y], draws[x, y], percentage, noiseColor)
  {
    var width, height := img.Length0, img.Length1;
    out := new Color[width, height];
    for y := 0 to height
      invariant forall i, j :: 0 <= i < width && 0 <= j < y ==> out[i, j] == NoisyPixel(img[i, j], draws[i, j], percentage, noiseColor)
    {
      for x := 0 to width
        invariant forall i, j :: 0 <= i < width && 0 <= j < y ==> out[i, j] == NoisyPixel(img[i, j], draws[i, j], percentage, noiseColor)
        invariant forall i :: 0 <= i < x ==> out[i, y] == NoisyPixel(img[i, y], draws[i, y], percentage, noiseColor)
      {
        if draws[x, y] < percentage {
          out[x, y] := noiseColor;
        } else {
          out[x, y] := img[x, y];
        }
      }
    }
  }

  method AddSaltNoise(img: array2<Color>, percentage: real, draws: array2<real>) returns (out: array2<Color>)
    requires SameSize(draws, img)
    ensures fresh(out) && SameSize(out, img)
    ensures forall x, y :: 0 <= x < out.Length0 && 0 <= y < out.Length1 ==>
              out[x, y] == NoisyPixel(img[x, y], draws[x, y], percentage, WHITE)
  {
    out := AddNoise(img, percentage, WHITE, draws);
  }

  method AddPepperNoise(img: array2<Color>, percentage: real, draws: array2<real>) returns (out: array2<Color>)
    requires SameSize(draws, img)
    ensures fresh(out) && SameSize(out, img)
    ensures forall x, y :: 0 <= x < out.Length0 && 0 <= y < out.Length1 ==>
              out[x, y] == NoisyPixel(img[x, y], draws[x, y], percentage, BLACK)
  {
    out := AddNoise(img, percentage, BLACK, draws);
  }

  /** With draws in [0, 1): a percentage of at most 0 changes nothing, one of
      at least 1 replaces everything, and a changed pixel is the noise colour. */
  lemma NoiseExtremes(c: Color, draw: real, percentage: real, noiseColor: Color)
    requires 0.0 <= draw < 1.0
    ensures percentage <= 0.0 ==> NoisyPixel(c, draw, percentage, noiseColor) == c
    ensures percentage >= 1.0 ==> NoisyPixel(c, draw, percentage, noiseColor) == noiseColor
    ensures NoisyPixel(c, draw, percentage, noiseColor) == c || NoisyPixel(c, draw, percentage, noiseColor) == noiseColor
  {
  }

  // ---------------------------------------------------------------------
  // The window

  /** kernelSize / 2 with Java's division, which truncates toward zero. */
  function HalfKernel(kernelSize: int): (h: int)
    ensures kernelSize >= 0 ==> 0 <= 2 * h <= kernelSize < 2 * h + 2
    ensures kernelSize < 0 ==> h <= 0 && -kernelSize < -2 * h + 2
  {
    if kernelSize >= 0 then kernelSize / 2 else -((-kernelSize) / 2)
  }

  /** Every in-bounds pixel within half of (x, y) on both axes is white. */
  predicate AllWhite(img: array2<Color>, half: int, x: int, y: int)
    reads img
  {
    forall i, j :: 0 <= i < img.Length0 && 0 <= j < img.Length1 && x - half <= i <= x + half && y - half <= j <= y + half ==>
      img[i, j] == WHITE
  }

  /** Some in-bounds pixel within half of (x, y) on both axes is white. */
  predicate AnyWhite(img: array2<Color>, half: int, x: int, y: int)
    reads img
  {
    exists i, j :: 0 <= i < img.Length0 && 0 <= j < img.Length1 && x - half <= i <= x + half && y - half <= j <= y + half &&
      img[i, j] == WHITE
  }

  /** The output pixel of erosion (isErosion) or dilation. */
  function MorphPixel(img: array2<Color>, half: int, x: int, y: int, isErosion: bool): (c: Color)
    reads img
    ensures c == WHITE || c == BLACK
  {
    if isErosion then (if AllWhite(img, half, x, y) then WHITE else BLACK)
    else (if AnyWhite(img, half, x, y) then WHITE else BLACK)
  }

  /** Scans the window of (x, y) row by row, stopping at the first pixel that
      decides the result: a non-white one for erosion, a white one for
      dilation. */
  method Probe(img: array2<Color>, half: int, x: int, y: int, isErosion: bool) returns (applyOperation: bool)
    ensures applyOperation == if isErosion then AllWhite(img, half, x, y) else AnyWhite(img, half, x, y)
  {
    var width, height := img.Length0, img.Length1;
    applyOperation := isErosion;
    var ky := -half;
    while ky <= half
      invariant applyOperation == isErosion
      invariant forall i, j :: 0 <= i < width && 0 <= j < height && x - half <= i <= x + half && y - half <= j < y + ky ==>
                  (img[i, j] == WHITE <==> isErosion)
      invariant ky > half ==> ky == half + 1 || half < -half
    {
      var row := y + ky;
      var kx := -half;
      while kx <= half
        invariant applyOperation == isErosion
        invariant forall i, j :: 0 <= i < width && 0 <= j < height && x - half <= i <= x + half && y - half <= j < y + ky ==>
                    (img[i, j] == WHITE <==> isErosion)
        invariant forall i :: 0 <= i < width && 0 <= row < height && x - half <= i < x + kx ==>
                    (img[i, row] == WHITE <==> isErosion)
        invariant kx > half ==> kx == half + 1 || half < -half
      {
        var newY := y + ky;
        var newX := x + kx;
        if newY >= 0 && newY < height && newX >= 0 && newX < width {
          var isWhite := img[newX, newY] == WHITE;
          if isErosion {
            if !isWhite {
              applyOperation := false;
              break;
            }
          } else {
            if isWhite {
              applyOperation := true;
              break;
            }
          }
        }
        kx := kx + 1;
      }
      if (isErosion && !applyOperation) || (!isErosion && applyOperation) {
        break;
      }
      ky := ky + 1;
    }
  }

  method ApplyMorphologicalOperation(binaryImage: array2<Color>, kernelSize: int, isErosion: bool) returns (out: array2<Color>)
    ensures fresh(out) && SameSize(out, binaryImage)
    ensures forall x, y :: 0 <= x < out.Length0 && 0 <= y < out.Length1 ==>
              out[x, y] == MorphPixel(binaryImage, HalfKernel(kernelSize), x, y, isErosion)
  {
    var width, height := binaryImage.Length0, binaryImage.Length1;
    out := new Color[width, height];
    var halfKernel := HalfKernel(kernelSize);
    for y := 0 to height
      invariant forall i, j :: 0 <= i < width && 0 <= j < y ==> out[i, j] == MorphPixel(binaryImage, halfKernel, i, j, isErosion)
    {
      for x := 0 to width
        invariant forall i, j :: 0 <= i < width && 0 <= j < y ==> out[i, j] == MorphPixel(binaryImage, halfKernel, i, j, isErosion)
        invariant forall i :: 0 <= i < x ==> out[i, y] == MorphPixel(binaryImage, halfKernel, i, y, isErosion)
      {
        var applyOperation := Probe(binaryImage, halfKernel, x, y, isErosion);
        out[x, y] := if applyOperation then WHITE else BLACK;
      }
    }
  }

  /** The image binarised at 0.5, the input of every morphological operation. */
  function Binary(c: Color): Color {
    BinarizePixel(c, 0.5)
  }

  /** Erosion of the image binarised at 0.5; the ghost output is that
      binarised image. */
  method Erode(img: array2<Color>, kernelSize: int) returns (out: array2<Color>, ghost binary: array2<Color>)
    requires ValidImage(img)
    ensures fresh(out) && SameSize(out, img) && SameSize(binary, img)
    ensures forall x, y :: 0 <= x < img.Length0 && 0 <= y < img.Length1 ==>
              binary[x, y] == Binary(img[x, y]) && out[x, y] == MorphPixel(binary, HalfKernel(kernelSize), x, y, true)
  {
    var binaryImage := Binarize(img, 0.5);
    out := ApplyMorphologicalOperation(binaryImage, kernelSize, true);
    binary := binaryImage;
  }

  /** Dilation of the image binarised at 0.5; the ghost output is that
      binarised image. */
  method Dilate(img: array2<Color>, kernelSize: int) returns (out: array2<Color>, ghost binary: array2<Color>)
    requires ValidImage(img)
    ensures fresh(out) && SameSize(out, img) && SameSize(binary, img)
    ensures forall x, y :: 0 <= x < img.Length0 && 0 <= y < img.Length1 ==>
              binary[x, y] == Binary(img[x, y]) && out[x, y] == MorphPixel(binary, HalfKernel(kernelSize), x, y, false)
  {
    var binaryImage := Binarize(img, 0.5);
    out := ApplyMorphologicalOperation(binaryImage, kernelSize, false);
    binary := binaryImage;
  }

  /** Opening: erosion of the binarised image, then dilation of the result
      with the same window; the ghost outputs are the two intermediate
      images. It never whitens a pixel that is black in the binarised input. */
  method Open(img: array2<Color>, kernelSize: int) returns (out: array2<Color>, ghost binary: array2<Color>, ghost eroded: array2<Color>)
    requires ValidImage(img)
    ensures fresh(out) && SameSize(out, img) && SameSize(binary, img) && SameSize(eroded, img)
    ensures forall x, y :: 0 <= x < img.Length0 && 0 <= y < img.Length1 ==>
              binary[x, y] == Binary(img[x, y]) &&
              eroded[x, y] == MorphPixel(binary, HalfKernel(kernelSize), x, y, true) &&
              out[x, y] == MorphPixel(eroded, HalfKernel(kernelSize), x, y, false)
    ensures forall x, y :: 0 <= x < out.Length0 && 0 <= y < out.Length1 && out[x, y] == WHITE ==> Binary(img[x, y]) == WHITE
  {
    var binaryImage := Binarize(img, 0.5);
    var erodedImage := ApplyMorphologicalOperation(binaryImage, kernelSize, true);
    out := ApplyMorphologicalOperation(erodedImage, kernelSize, false);
    forall x, y | 0 <= x < out.Length0 && 0 <= y < out.Length1 && out[x, y] == WHITE
      ensures Binary(img[x, y]) == WHITE
    {
      OpeningShrinks(binaryImage, erodedImage, HalfKernel(kernelSize), x, y);
    }
    binary, eroded := binaryImage, erodedImage;
  }

  /** Closing: dilation of the binarised image, then erosion of the result
      with the same window; the ghost outputs are the two intermediate
      images. It never blackens a pixel that is white in the binarised input. */
  method Close(img: array2<Color>, kernelSize: int) returns (out: array2<Color>, ghost binary: array2<Color>, ghost dilated: array2<Color>)
    requires ValidImage(img)
    ensures fresh(out) && SameSize(out, img) && SameSize(binary, img) && SameSize(dilated, img)
    ensures forall x, y :: 0 <= x < img.Length0 && 0 <= y < img.Length1 ==>
              binary[x, y] == Binary(img[x, y]) &&
              dilated[x, y] == MorphPixel(binary, HalfKernel(kernelSize), x, y, false) &&
              out[x, y] == MorphPixel(dilated, HalfKernel(kernelSize), x, y, true)
    ensures forall x, y :: 0 <= x < out.Length0 && 0 <= y < out.Length1 && Binary(img[x, y]) == WHITE ==> out[x, y] == WHITE
  {
    var binaryImage := Binarize(img, 0.5);
    var dilatedImage := ApplyMorphologicalOperation(binaryImage, kernelSize, false);
    out := ApplyMorphologicalOperation(dilatedImage, kernelSize, true);
    forall x, y | 0 <= x < out.Length0 && 0 <= y < out.Length1 && Binary(img[x, y]) == WHITE
      ensures out[x, y] == WHITE
    {
      ClosingGrows(binaryImage, dilatedImage, HalfKernel(kernelSize), x, y);
    }
    binary, dilated := binaryImage, dilatedImage;
  }

  // ---------------------------------------------------------------------
  // Laws

  /** The window always holds its own centre, so with half >= 0 erosion only
      removes white and dilation only adds it. */
  lemma ErosionInsideDilationOutside(img: array2<Color>, half: int, x: int, y: int)
    requires 0 <= x < img.Length0 && 0 <= y < img.Length1 && half >= 0
    ensures MorphPixel(img, half, x, y, true) == WHITE ==> img[x, y] == WHITE
    ensures img[x, y] == WHITE ==> MorphPixel(img, half, x, y, false) == WHITE
  {
    if img[x, y] == WHITE {
      assert AnyWhite(img, half, x, y);
    }
  }

  /** Dilating an erosion stays inside the original: a white output pixel lies
      in the window of some eroded-white pixel, whose whole window is white in
      the original. */
  lemma OpeningShrinks(img: array2<Color>, eroded: array2<Color>, half: int, x: int, y: int)
    requires SameSize(eroded, img) && 0 <= x < img.Length0 && 0 <= y < img.Length1
    requires forall i, j :: 0 <= i < eroded.Length0 && 0 <= j < eroded.Length1 ==> eroded[i, j] == MorphPixel(img, half, i, j, true)
    ensures MorphPixel(eroded, half, x, y, false) == WHITE ==> img[x, y] == WHITE
  {
    if MorphPixel(eroded, half, x, y, false) == WHITE {
      var i, j :| 0 <= i < eroded.Length0 && 0 <= j < eroded.Length1 && x - half <= i <= x + half && y - half <= j <= y + half &&
        eroded[i, j] == WHITE;
      assert AllWhite(img, half, i, j);
    }
  }

  /** Eroding a dilation covers the original: every window around a white
      pixel holds that pixel, so all dilated pixels of its window are white. */
  lemma ClosingGrows(img: array2<Color>, dilated: array2<Color>, half: int, x: int, y: int)
    requires SameSize(dilated, img) && 0 <= x < img.Length0 && 0 <= y < img.Length1
    requires forall i, j :: 0 <= i < dilated.Length0 && 0 <= j < dilated.Length1 ==> dilated[i, j] == MorphPixel(img, half, i, j, false)
    ensures img[x, y] == WHITE ==> MorphPixel(dilated, half, x, y, true) == WHITE
  {
    if img[x, y] == WHITE {
      forall i, j | 0 <= i < dilated.Length0 && 0 <= j < dilated.Length1 && x - half <= i <= x + half && y - half <= j <= y + half
        ensures dilated[i, j] == WHITE
      {
        assert AnyWhite(img, half, i, j);
      }
    }
  }

  /** Black for white and everything else for white. */
  function Complement(c: Color): (d: Color)
    ensures d == WHITE <==> c != WHITE
  {
    if c == WHITE then BLACK else WHITE
  }

  /** Duality: erosion is the complement of dilating the complement. */
  lemma ErosionDilationDuality(img: array2<Color>, inverse: array2<Color>, half: int, x: int, y: int)
    requires SameSize(inverse, img)
    requires forall i, j :: 0 <= i < img.Length0 && 0 <= j < img.Length1 ==> inverse[i, j] == Complement(img[i, j])
    ensures MorphPixel(img, half, x, y, true) == Complement(MorphPixel(inverse, half, x, y, false))
  {
    if !AllWhite(img, half, x, y) {
      var i, j :| 0 <= i < img.Length0 && 0 <= j < img.Length1 && x - half <= i <= x + half && y - half <= j <= y + half &&
        img[i, j] != WHITE;
      assert inverse[i, j] == WHITE;
    }
  }

  /** On a 5 x 5 image whose only white pixel is the centre, a 3 x 3 erosion
      is all black and a 3 x 3 dilation is the 3 x 3 block around the centre. */
  lemma SingleDotScenario(img: array2<Color>, x: int, y: int)
    requires img.Length0 == 5 && img.Length1 == 5 && 0 <= x < 5 && 0 <= y < 5
    requires forall i, j :: 0 <= i < 5 && 0 <= j < 5 ==> img[i, j] == if i == 2 && j == 2 then WHITE else BLACK
    ensures MorphPixel(img, HalfKernel(3), x, y, true) == BLACK
    ensures MorphPixel(img, HalfKernel(3), x, y, false) == if 1 <= x <= 3 && 1 <= y <= 3 then WHITE else BLACK
  {
    assert HalfKernel(3) == 1;
    var n := if x == 2 && y == 2 then 1 else x;
    assert img[n, y] == BLACK;
    if 1 <= x <= 3 && 1 <= y <= 3 {
      assert img[2, 2] == WHITE;
    }
  }
}
