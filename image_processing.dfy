/** Point operators: grayscale, channel extraction, brightness, contrast and
    binarisation. Each allocates a fresh image of the input's size and fills it
    pixel by pixel from a per-pixel rule. */
module ImageProcessing {
  import opened Raster

  datatype Channel = Red | Green | Blue

  /** The average of the three colour channels, as an opaque-preserving gray. */
  function GrayscalePixel(c: Color): (g: Color)
    ensures ValidColor(c) ==> ValidColor(g)
    ensures ValidColor(c) ==> Min3(c.r, c.g, c.b) <= g.r <= Max3(c.r, c.g, c.b)
  {
    var gray := (c.r + c.g + c.b) / 3.0;
    Color(gray, gray, gray, c.a)
  }

  /** The selected channel shown in its own colour; the other two are zero. */
  function ChannelPixel(c: Color, channel: Channel): (p: Color)
    ensures ValidColor(c) ==> ValidColor(p)
  {
    match channel
    case Red => Color(c.r, 0.0, 0.0, c.a)
    case Green => Color(0.0, c.g, 0.0, c.a)
    case Blue => Color(0.0, 0.0, c.b, c.a)
  }

  function BrightnessPixel(c: Color, brightness: real): (p: Color)
    ensures InUnit(c.a) ==> ValidColor(p)
  {
    Color(Clamp01(c.r + brightness), Clamp01(c.g + brightness), Clamp01(c.b + brightness), c.a)
  }

  function ContrastPixel(c: Color, contrast: real): (p: Color)
    ensures InUnit(c.a) ==> ValidColor(p)
  {
    Color(Clamp01((c.r - 0.5) * contrast + 0.5), Clamp01((c.g - 0.5) * contrast + 0.5),
          Clamp01((c.b - 0.5) * contrast + 0.5), c.a)
  }

  /** Pure white when the average gray reaches the threshold, pure black otherwise. */
  function BinarizePixel(c: Color, threshold: real): (p: Color)
    ensures p == WHITE || p == BLACK
    ensures p == WHITE <==> (c.r + c.g + c.b) / 3.0 >= threshold
  {
    if GrayscalePixel(c).r >= threshold then WHITE else BLACK
  }

  method ConvertToGrayscale(img: array2<Color>) returns (out: array2<Color>)
    requires ValidImage(img)
    ensures fresh(out) && SameSize(out, img) && ValidImage(out)
    ensures forall x, y :: 0 <= x < out.Length0 && 0 <= y < out.Length1 ==>
              out[x, y] == GrayscalePixel(img[x, y])
  {
    var width, height := img.Length0, img.Length1;
    out := new Color[width, height];
    for x := 0 to width
      invariant forall i, j :: 0 <= i < x && 0 <= j < height ==> out[i, j] == GrayscalePixel(img[i, j])
    {
      for y := 0 to height
        invariant forall i, j :: 0 <= i < x && 0 <= j < height ==> out[i, j] == GrayscalePixel(img[i, j])
        invariant forall j :: 0 <= j < y ==> out[x, j] == GrayscalePixel(img[x, j])
      {
        out[x, y] := GrayscalePixel(img[x, y]);
      }
    }
  }

  method ExtractChannel(img: array2<Color>, channel: Channel) returns (out: array2<Color>)
    requires ValidImage(img)
    ensures fresh(out) && SameSize(out, img) && ValidImage(out)
    ensures forall x, y :: 0 <= x < out.Length0 && 0 <= y < out.Length1 ==>
              out[x, y] == ChannelPixel(img[x, y], channel)
  {
    var width, height := img.Length0, img.Length1;
    out := new Color[width, height];
    for x := 0 to width
      invariant forall i, j :: 0 <= i < x && 0 <= j < height ==> out[i, j] == ChannelPixel(img[i, j], channel)
    {
      for y := 0 to height
        invariant forall i, j :: 0 <= i < x && 0 <= j < height ==> out[i, j] == ChannelPixel(img[i, j], channel)
        invariant forall j :: 0 <= j < y ==> out[x, j] == ChannelPixel(img[x, j], channel)
      {
        out[x, y] := ChannelPixel(img[x, y], channel);
      }
    }
  }

  method ExtractRedChannel(img: array2<Color>) returns (out: array2<Color>)
    requires ValidImage(img)
    ensures fresh(out) && SameSize(out, img)
    ensures forall x, y :: 0 <= x < out.Length0 && 0 <= y < out.Length1 ==>
              out[x, y] == Color(img[x, y].r, 0.0, 0.0, img[x, y].a)
  {
    out := ExtractChannel(img, Red);
  }

  method ExtractGreenChannel(img: array2<Color>) returns (out: array2<Color>)
    requires ValidImage(img)
    ensures fresh(out) && SameSize(out, img)
    ensures forall x, y :: 0 <= x < out.Length0 && 0 <= y < out.Length1 ==>
              out[x, y] == Color(0.0, img[x, y].g, 0.0, img[x, y].a)
  {
    out := ExtractChannel(img, Green);
  }

  method ExtractBlueChannel(img: array2<Color>) returns (out: array2<Color>)
    requires ValidImage(img)
    ensures fresh(out) && SameSize(out, img)
    ensures forall x, y :: 0 <= x < out.Length0 && 0 <= y < out.Length1 ==>
              out[x, y] == Color(0.0, 0.0, img[x, y].b, img[x, y].a)
  {
    out := ExtractChannel(img, Blue);
  }

  method AdjustBrightness(img: array2<Color>, brightness: real) returns (out: array2<Color>)
    requires ValidImage(img)
    ensures fresh(out) && SameSize(out, img) && ValidImage(out)
    ensures forall x, y :: 0 <= x < out.Length0 && 0 <= y < out.Length1 ==>
              out[x, y] == BrightnessPixel(img[x, y], brightness)
  {
    var width, height := img.Length0, img.Length1;
    out := new Color[width, height];
    for x := 0 to width
      invariant forall i, j :: 0 <= i < x && 0 <= j < height ==> out[i, j] == BrightnessPixel(img[i, j], brightness)
    {
      for y := 0 to height
        invariant forall i, j :: 0 <= i < x && 0 <= j < height ==> out[i, j] == BrightnessPixel(img[i, j], brightness)
        invariant forall j :: 0 <= j < y ==> out[x, j] == BrightnessPixel(img[x, j], brightness)
      {
        out[x, y] := BrightnessPixel(img[x, y], brightness);
      }
    }
  }

  method AdjustContrast(img: array2<Color>, contrast: real) returns (out: array2<Color>)
    requires ValidImage(img)
    ensures fresh(out) && SameSize(out, img) && ValidImage(out)
    ensures forall x, y :: 0 <= x < out.Length0 && 0 <= y < out.Length1 ==>
              out[x, y] == ContrastPixel(img[x, y], contrast)
  {
    var width, height := img.Length0, img.Length1;
    out := new Color[width, height];
    for x := 0 to width
      invariant forall i, j :: 0 <= i < x && 0 <= j < height ==> out[i, j] == ContrastPixel(img[i, j], contrast)
    {
      for y := 0 to height
        invariant forall i, j :: 0 <= i < x && 0 <= j < height ==> out[i, j] == ContrastPixel(img[i, j], contrast)
        invariant forall j :: 0 <= j < y ==> out[x, j] == ContrastPixel(img[x, j], contrast)
      {
        out[x, y] := ContrastPixel(img[x, y], contrast);
      }
    }
  }

  /** Converts to grayscale first, then thresholds the gray (red) channel. */
  method Binarize(img: array2<Color>, threshold: real) returns (out: array2<Color>)
    requires ValidImage(img)
    ensures fresh(out) && SameSize(out, img) && ValidImage(out)
    ensures forall x, y :: 0 <= x < out.Length0 && 0 <= y < out.Length1 ==>
              out[x, y] == BinarizePixel(img[x, y], threshold)
  {
    var grayImage := ConvertToGrayscale(img);
    var width, height := grayImage.Length0, grayImage.Length1;
    out := new Color[width, height];
    for y := 0 to height
      modifies out
      invariant forall i, j :: 0 <= i < width && 0 <= j < y ==> out[i, j] == BinarizePixel(img[i, j], threshold)
    {
      for x := 0 to width
        modifies out
        invariant forall i, j :: 0 <= i < width && 0 <= j < y ==> out[i, j] == BinarizePixel(img[i, j], threshold)
        invariant forall i :: 0 <= i < x ==> out[i, y] == BinarizePixel(img[i, y], threshold)
      {
        var gray := grayImage[x, y].r;
        out[x, y] := if gray >= threshold then WHITE else BLACK;
      }
    }
  }

  // ---------------------------------------------------------------------
  // Properties of the per-pixel rules

  /** Brightness 0 leaves an in-range pixel as it is. */
  lemma BrightnessZeroIsIdentity(c: Color)
    requires ValidColor(c)
    ensures BrightnessPixel(c, 0.0) == c
  {
  }

  /** Contrast 1 leaves an in-range pixel as it is. */
  lemma ContrastOneIsIdentity(c: Color)
    requires ValidColor(c)
    ensures ContrastPixel(c, 1.0) == c
  {
  }

  /** Mid-gray is the fixed point of every contrast factor. */
  lemma ContrastFixesMidGray(c: Color, contrast: real)
    requires c.r == 0.5
    ensures ContrastPixel(c, contrast).r == 0.5
  {
  }

  /** Binarising an already binarised image at the same threshold changes
      nothing: white has gray 1 and black gray 0, and every valid pixel's gray
      lies in [0,1], so a threshold outside (0,1] sends everything one way. */
  lemma BinarizeIdempotent(c: Color, threshold: real)
    requires ValidColor(c)
    ensures BinarizePixel(BinarizePixel(c, threshold), threshold) == BinarizePixel(c, threshold)
  {
    var g := (c.r + c.g + c.b) / 3.0;
    assert 0.0 <= g <= 1.0;
  }

  /** A gray just above the threshold gives white, one just below gives black. */
  lemma BinarizeThresholdScenario()
    ensures BinarizePixel(GrayColor(0.5000001), 0.5) == WHITE
    ensures BinarizePixel(GrayColor(0.4999999), 0.5) == BLACK
  {
  }

  /** A single pixel (0.7, 0.2, 0.9, 1.0) brightened by 0.5 clamps to (1.0, 0.7, 1.0, 1.0). */
  lemma BrightnessClampScenario()
    ensures BrightnessPixel(Color(0.7, 0.2, 0.9, 1.0), 0.5) == Color(1.0, 0.7, 1.0, 1.0)
  {
  }
}
