/** Translation, rotation about the centre and scaling about the centre. Each
    output pixel is fetched from a back-mapped source position; positions that
    fall outside the image become transparent. */
module Geometry {
  import opened Raster

  /** Whether a real position lies inside a width x height image. */
  predicate InsideReal(px: real, py: real, width: int, height: int) {
    0.0 <= px < width as real && 0.0 <= py < height as real
  }

  /** The source pixel at a back-mapped real position, or transparent when
      the position is outside; the position is cast to int, which truncates. */
  function Fetch(img: array2<Color>, px: real, py: real): (c: Color)
    reads img
    ensures InsideReal(px, py, img.Length0, img.Length1) ==> c == img[px.Floor, py.Floor]
    ensures !InsideReal(px, py, img.Length0, img.Length1) ==> c == TRANSPARENT
  {
    if InsideReal(px, py, img.Length0, img.Length1) then img[Trunc(px), Trunc(py)] else TRANSPARENT
  }

  // ---------------------------------------------------------------------
  // Translation

  /** Output pixel (x, y) of a translation by (tx, ty): the source position
      (x - tx, y - ty) is truncated first and then bounds-checked. */
  function TranslatedPixel(img: array2<Color>, x: int, y: int, tx: real, ty: real): Color
    reads img
  {
    var newX := Trunc(x as real - tx);
    var newY := Trunc(y as real - ty);
    if 0 <= newX < img.Length0 && 0 <= newY < img.Length1 then img[newX, newY] else TRANSPARENT
  }

  method Translate(img: array2<Color>, tx: real, ty: real) returns (out: array2<Color>)
    requires ValidImage(img)
    ensures fresh(out) && SameSize(out, img) && ValidImage(out)
    ensures forall x, y :: 0 <= x < out.Length0 && 0 <= y < out.Length1 ==>
              out[x, y] == TranslatedPixel(img, x, y, tx, ty)
  {
    var width, height := img.Length0, img.Length1;
    out := new Color[width, height];
    for y := 0 to height
      invariant forall i, j :: 0 <= i < width && 0 <= j < y ==> out[i, j] == TranslatedPixel(img, i, j, tx, ty)
    {
      for x := 0 to width
        invariant forall i, j :: 0 <= i < width && 0 <= j < y ==> out[i, j] == TranslatedPixel(img, i, j, tx, ty)
        invariant forall i :: 0 <= i < x ==> out[i, y] == TranslatedPixel(img, i, y, tx, ty)
      {
        var newX := Trunc(x as real - tx);
        var newY := Trunc(y as real - ty);
        if newX >= 0 && newX < width && newY >= 0 && newY < height {
          out[x, y] := img[newX, newY];
        } else {
          out[x, y] := TRANSPARENT;
        }
      }
    }
  }

  /** A whole-pixel translation moves pixel (x - dx, y - dy) to (x, y), and
      what enters from outside is transparent. */
  lemma TranslateByWholePixels(img: array2<Color>, x: int, y: int, dx: int, dy: int)
    ensures TranslatedPixel(img, x, y, dx as real, dy as real) ==
              (if 0 <= x - dx < img.Length0 && 0 <= y - dy < img.Length1 then img[x - dx, y - dy] else TRANSPARENT)
  {
    assert Trunc((x - dx) as real) == x - dx;
    assert Trunc((y - dy) as real) == y - dy;
  }

  /** Truncation toward zero lets a shift by less than one pixel to the right
      keep column 0: for 0 < tx < 1, column 0 still shows the source column 0. */
  lemma TranslateFractionKeepsColumnZero(img: array2<Color>, tx: real)
    requires img.Length0 > 0 && img.Length1 > 0 && 0.0 < tx < 1.0
    ensures TranslatedPixel(img, 0, 0, tx, 0.0) == img[0, 0]
  {
    assert Trunc(0.0 - tx) == 0;
  }

  // ---------------------------------------------------------------------
  // Rotation

  /** Output pixel (x, y) of a rotation about (width/2, height/2); the sine and
      cosine of the angle are supplied from outside. */
  function RotatedPixel(img: array2<Color>, x: int, y: int, sin: real, cos: real): Color
    reads img
  {
    var centerX := img.Length0 as real / 2.0;
    var centerY := img.Length1 as real / 2.0;
    Fetch(img, RotateX(x as real - centerX, y as real - centerY, sin, cos) + centerX,
               RotateY(x as real - centerX, y as real - centerY, sin, cos) + centerY)
  }

  /** The first coordinate of (x0, y0) turned by the angle with this sine and cosine. */
  function RotateX(x0: real, y0: real, sin: real, cos: real): real {
    x0 * cos - y0 * sin
  }

  /** The second coordinate of (x0, y0) turned by the angle. */
  function RotateY(x0: real, y0: real, sin: real, cos: real): real {
    x0 * sin + y0 * cos
  }

  method Rotate(img: array2<Color>, sin: real, cos: real) returns (out: array2<Color>)
    requires ValidImage(img)
    ensures fresh(out) && SameSize(out, img) && ValidImage(out)
    ensures forall x, y :: 0 <= x < out.Length0 && 0 <= y < out.Length1 ==>
              out[x, y] == RotatedPixel(img, x, y, sin, cos)
  {
    var width, height := img.Length0, img.Length1;
    var centerX := width as real / 2.0;
    var centerY := height as real / 2.0;
    out := new Color[width, height];
    for y := 0 to height
      invariant forall i, j :: 0 <= i < width && 0 <= j < y ==> out[i, j] == RotatedPixel(img, i, j, sin, cos)
    {
      for x := 0 to width
        invariant forall i, j :: 0 <= i < width && 0 <= j < y ==> out[i, j] == RotatedPixel(img, i, j, sin, cos)
        invariant forall i :: 0 <= i < x ==> out[i, y] == RotatedPixel(img, i, y, sin, cos)
      {
        var x0 := x as real - centerX;
        var y0 := y as real - centerY;
        var newX := RotateX(x0, y0, sin, cos) + centerX;
        var newY := RotateY(x0, y0, sin, cos) + centerY;
        if newX >= 0.0 && newX < width as real && newY >= 0.0 && newY < height as real {
          out[x, y] := img[Trunc(newX), Trunc(newY)];
        } else {
          out[x, y] := TRANSPARENT;
        }
      }
    }
  }

  /** A rotation by zero degrees (sine 0, cosine 1) leaves every pixel. */
  lemma RotateByZeroIsIdentity(img: array2<Color>, x: int, y: int)
    requires 0 <= x < img.Length0 && 0 <= y < img.Length1
    ensures RotatedPixel(img, x, y, 0.0, 1.0) == img[x, y]
  {
  }

  /** A half turn (sine 0, cosine -1) maps x to width - x rather than
      width - 1 - x: column 0 becomes transparent and every other column
      shows its mirror shifted by one. */
  lemma RotateHalfTurn(img: array2<Color>, x: int, y: int)
    requires 0 <= x < img.Length0 && 0 <= y < img.Length1
    ensures x == 0 || y == 0 ==> RotatedPixel(img, x, y, 0.0, -1.0) == TRANSPARENT
    ensures x > 0 && y > 0 ==> RotatedPixel(img, x, y, 0.0, -1.0) == img[img.Length0 - x, img.Length1 - y]
  {
    var w, h := img.Length0 as real, img.Length1 as real;
    assert (x as real - w / 2.0) * -1.0 + w / 2.0 == (img.Length0 - x) as real;
    assert (y as real - h / 2.0) * -1.0 + h / 2.0 == (img.Length1 - y) as real;
  }

  // ---------------------------------------------------------------------
  // Scaling

  /** Output pixel (x, y) of a scaling about the centre. A zero factor makes
      the source position infinite or undefined in floating point, so every
      bounds test fails and the pixel is transparent. */
  function ScaledPixel(img: array2<Color>, x: int, y: int, sx: real, sy: real): Color
    reads img
  {
    if sx == 0.0 || sy == 0.0 then TRANSPARENT
    else
      var centerX := img.Length0 as real / 2.0;
      var centerY := img.Length1 as real / 2.0;
      Fetch(img, (x as real - centerX) / sx + centerX, (y as real - centerY) / sy + centerY)
  }

  method Scale(img: array2<Color>, sx: real, sy: real) returns (out: array2<Color>)
    requires ValidImage(img)
    ensures fresh(out) && SameSize(out, img) && ValidImage(out)
    ensures forall x, y :: 0 <= x < out.Length0 && 0 <= y < out.Length1 ==>
              out[x, y] == ScaledPixel(img, x, y, sx, sy)
  {
    var width, height := img.Length0, img.Length1;
    var centerX := width as real / 2.0;
    var centerY := height as real / 2.0;
    out := new Color[width, height];
    for y := 0 to height
      invariant forall i, j :: 0 <= i < width && 0 <= j < y ==> out[i, j] == ScaledPixel(img, i, j, sx, sy)
    {
      for x := 0 to width
        invariant forall i, j :: 0 <= i < width && 0 <= j < y ==> out[i, j] == ScaledPixel(img, i, j, sx, sy)
        invariant forall i :: 0 <= i < x ==> out[i, y] == ScaledPixel(img, i, y, sx, sy)
      {
        if sx == 0.0 || sy == 0.0 {
          out[x, y] := TRANSPARENT;
        } else {
          var newX := (x as real - centerX) / sx + centerX;
          var newY := (y as real - centerY) / sy + centerY;
          if newX >= 0.0 && newX < width as real && newY >= 0.0 && newY < height as real {
            out[x, y] := img[Trunc(newX), Trunc(newY)];
          } else {
            out[x, y] := TRANSPARENT;
          }
        }
      }
    }
  }

  /** Scaling by 1 in both directions leaves every pixel. */
  lemma ScaleByOneIsIdentity(img: array2<Color>, x: int, y: int)
    requires 0 <= x < img.Length0 && 0 <= y < img.Length1
    ensures ScaledPixel(img, x, y, 1.0, 1.0) == img[x, y]
  {
  }

  /** The centre pixel of an image with even sides stays in place under any
      non-zero scaling. */
  lemma ScaleFixesCentre(img: array2<Color>, sx: real, sy: real)
    requires img.Length0 > 0 && img.Length1 > 0 && img.Length0 % 2 == 0 && img.Length1 % 2 == 0
    requires sx != 0.0 && sy != 0.0
    ensures ScaledPixel(img, img.Length0 / 2, img.Length1 / 2, sx, sy) == img[img.Length0 / 2, img.Length1 / 2]
  {
    assert (img.Length0 / 2) as real == img.Length0 as real / 2.0;
    assert (img.Length1 / 2) as real == img.Length1 as real / 2.0;
  }

}
