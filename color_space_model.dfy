/** The colour-space model: it holds the loaded image as 32-bit ARGB words,
    its RGB rendition with the four derived channel images, the name of the
    current transformation and the brightness/contrast settings. */
module ColorSpaceModelling {
  import opened Raster
  import opened Outcomes

  // ---------------------------------------------------------------------
  // ARGB words
  //
  // A Java int pixel is modelled by the unsigned value of its 32 bits. On that
  // reading, (argb >> s) & 0xFF is (argb / 2^s) % 256, and OR-ing byte fields
  // that do not overlap is adding them.

  predicate IsWord(w: int) {
    0 <= w < 0x1_0000_0000
  }

  predicate IsByte(n: int) {
    0 <= n < 0x100
  }

  /** (argb >> 16) & 0xFF. */
  function RedOf(argb: int): (r: int)
    ensures IsByte(r)
  {
    (argb / 0x1_0000) % 0x100
  }

  /** (argb >> 8) & 0xFF. */
  function GreenOf(argb: int): (g: int)
    ensures IsByte(g)
  {
    (argb / 0x100) % 0x100
  }

  /** argb & 0xFF. */
  function BlueOf(argb: int): (b: int)
    ensures IsByte(b)
  {
    argb % 0x100
  }

  /** (argb >> 24) & 0xFF. */
  function AlphaOf(argb: int): (a: int)
    ensures IsByte(a)
  {
    (argb / 0x100_0000) % 0x100
  }

  /** (0xFF << 24) | (r << 16) | (g << 8) | b: an opaque word. */
  function Pack(r: int, g: int, b: int): (w: int)
    requires IsByte(r) && IsByte(g) && IsByte(b)
    ensures IsWord(w)
  {
    0xFF * 0x100_0000 + r * 0x1_0000 + g * 0x100 + b
  }

  /** Unpacking a packed word gives back its three bytes, with alpha 0xFF. */
  lemma PackUnpack(r: int, g: int, b: int)
    requires IsByte(r) && IsByte(g) && IsByte(b)
    ensures RedOf(Pack(r, g, b)) == r && GreenOf(Pack(r, g, b)) == g && BlueOf(Pack(r, g, b)) == b
    ensures AlphaOf(Pack(r, g, b)) == 0xFF
  {
    var w := Pack(r, g, b);
    DivMod(w, 0x100, 0xFF * 0x1_0000 + r * 0x100 + g, b);
    DivMod(0xFF * 0x1_0000 + r * 0x100 + g, 0x100, 0xFF * 0x100 + r, g);
    DivMod(w, 0x1_0000, 0xFF * 0x100 + r, g * 0x100 + b);
    DivMod(0xFF * 0x100 + r, 0x100, 0xFF, r);
    DivMod(w, 0x100_0000, 0xFF, r * 0x1_0000 + g * 0x100 + b);
  }

  /** Euclidean division is determined by a quotient and a remainder in range. */
  lemma DivMod(w: int, d: int, q: int, m: int)
    requires d > 0 && w == q * d + m && 0 <= m < d
    ensures w / d == q && w % d == m
  {
    var q2, m2 := w / d, w % d;
    assert w == q2 * d + m2 && 0 <= m2 < d;
    var k := q2 - q;
    assert k * d == q2 * d - q * d;
    assert k * d == m - m2;
    if k > 0 {
      MulAtLeast(k, d);
    } else if k < 0 {
      MulAtLeast(-k, d);
    }
  }

  lemma MulAtLeast(k: int, d: int)
    requires k >= 1 && d > 0
    ensures k * d >= d
  {
    assert k * d == (k - 1) * d + d;
    assert (k - 1) * d >= 0;
  }

  /** The BT.601 luma of three bytes, truncated toward zero as Java's (int)
      cast does; the weights sum to 1, so the result is again a byte. */
  function GrayLevel(r: int, g: int, b: int): (gray: int)
    requires IsByte(r) && IsByte(g) && IsByte(b)
    ensures IsByte(gray)
  {
    Trunc(0.299 * r as real + 0.587 * g as real + 0.114 * b as real)
  }

  /** The pixel of the RGB rendition: the source's colour bytes, made opaque. */
  function OpaqueWord(argb: int): int {
    Pack(RedOf(argb), GreenOf(argb), BlueOf(argb))
  }

  /** A gray word carrying the same byte in all three colour positions. */
  function GrayWord(v: int): int
    requires IsByte(v)
  {
    Pack(v, v, v)
  }

  function LumaWord(argb: int): int {
    var gray := GrayLevel(RedOf(argb), GreenOf(argb), BlueOf(argb));
    Pack(gray, gray, gray)
  }

  /** The RGB rendition keeps every colour byte of the source and sets alpha to 0xFF. */
  lemma OpaqueWordKeepsColour(argb: int)
    ensures RedOf(OpaqueWord(argb)) == RedOf(argb)
    ensures GreenOf(OpaqueWord(argb)) == GreenOf(argb)
    ensures BlueOf(OpaqueWord(argb)) == BlueOf(argb)
    ensures AlphaOf(OpaqueWord(argb)) == 0xFF
  {
    PackUnpack(RedOf(argb), GreenOf(argb), BlueOf(argb));
  }

  /** A channel image pixel holds its byte in red, green and blue, with alpha 0xFF. */
  lemma GrayWordReplicates(v: int)
    requires IsByte(v)
    ensures RedOf(GrayWord(v)) == v && GreenOf(GrayWord(v)) == v && BlueOf(GrayWord(v)) == v
    ensures AlphaOf(GrayWord(v)) == 0xFF
  {
    PackUnpack(v, v, v);
  }

  /** The gray byte never spills into the neighbouring bytes: unpacking the
      gray word returns the luma in every colour position. */
  lemma LumaWordReplicates(argb: int)
    ensures var gray := GrayLevel(RedOf(argb), GreenOf(argb), BlueOf(argb));
      RedOf(LumaWord(argb)) == gray && GreenOf(LumaWord(argb)) == gray &&
      BlueOf(LumaWord(argb)) == gray && AlphaOf(LumaWord(argb)) == 0xFF
  {
    var gray := GrayLevel(RedOf(argb), GreenOf(argb), BlueOf(argb));
    GrayWordReplicates(gray);
  }

  /** The five words derived from one source pixel are its opaque rendition
      and its red, green, blue and gray channel pixels. */
  predicate PixelDerived(argb: int, rgb: int, redPixel: int, greenPixel: int, bluePixel: int, grayPixel: int) {
    rgb == OpaqueWord(argb) && redPixel == GrayWord(RedOf(argb)) && greenPixel == GrayWord(GreenOf(argb)) &&
    bluePixel == GrayWord(BlueOf(argb)) && grayPixel == LumaWord(argb)
  }

  /** What the five derived words hold: the rendition keeps the source's colour
      bytes, each channel pixel repeats its byte (the gray pixel its luma) in
      all three colour positions, and every word is opaque. */
  lemma PixelDerivedUnpacks(argb: int, rgb: int, redPixel: int, greenPixel: int, bluePixel: int, grayPixel: int)
    requires PixelDerived(argb, rgb, redPixel, greenPixel, bluePixel, grayPixel)
    ensures RedOf(rgb) == RedOf(argb) && GreenOf(rgb) == GreenOf(argb) && BlueOf(rgb) == BlueOf(argb)
    ensures RedOf(redPixel) == RedOf(argb) && GreenOf(redPixel) == RedOf(argb) && BlueOf(redPixel) == RedOf(argb)
    ensures RedOf(greenPixel) == GreenOf(argb) && GreenOf(greenPixel) == GreenOf(argb) && BlueOf(greenPixel) == GreenOf(argb)
    ensures RedOf(bluePixel) == BlueOf(argb) && GreenOf(bluePixel) == BlueOf(argb) && BlueOf(bluePixel) == BlueOf(argb)
    ensures var gray := GrayLevel(RedOf(argb), GreenOf(argb), BlueOf(argb));
      RedOf(grayPixel) == gray && GreenOf(grayPixel) == gray && BlueOf(grayPixel) == gray
    ensures AlphaOf(rgb) == 0xFF && AlphaOf(redPixel) == 0xFF && AlphaOf(greenPixel) == 0xFF
    ensures AlphaOf(bluePixel) == 0xFF && AlphaOf(grayPixel) == 0xFF
  {
    OpaqueWordKeepsColour(argb);
    GrayWordReplicates(RedOf(argb));
    GrayWordReplicates(GreenOf(argb));
    GrayWordReplicates(BlueOf(argb));
    LumaWordReplicates(argb);
  }

  /** The five words one source pixel contributes: its opaque RGB rendition
      and its red, green, blue and gray channel pixels. */
  method SplitPixel(argb: int) returns (rgb: int, redPixel: int, greenPixel: int, bluePixel: int, grayPixel: int)
    ensures PixelDerived(argb, rgb, redPixel, greenPixel, bluePixel, grayPixel)
  {
    var r, g, b := RedOf(argb), GreenOf(argb), BlueOf(argb);
    rgb := Pack(r, g, b);
    redPixel := Pack(r, r, r);
    greenPixel := Pack(g, g, g);
    bluePixel := Pack(b, b, b);
    var gray := GrayLevel(r, g, b);
    grayPixel := Pack(gray, gray, gray);
  }

  /** The nested loop of the RGB transformation: five fresh images of the
      source's size, filled pixel by pixel. */
  method SplitImage(source: array2<int>)
    returns (transformed: array2<int>, redChannel: array2<int>, greenChannel: array2<int>,
             blueChannel: array2<int>, grayChannel: array2<int>)
    ensures fresh(transformed) && fresh(redChannel) && fresh(greenChannel) && fresh(blueChannel) && fresh(grayChannel)
    ensures SameSize(transformed, source) && SameSize(redChannel, source) && SameSize(greenChannel, source)
    ensures SameSize(blueChannel, source) && SameSize(grayChannel, source)
    ensures forall x, y :: 0 <= x < source.Length0 && 0 <= y < source.Length1 ==>
              PixelDerived(source[x, y], transformed[x, y], redChannel[x, y], greenChannel[x, y],
                           blueChannel[x, y], grayChannel[x, y])
  {
    var width, height := source.Length0, source.Length1;
    transformed := new int[width, height];
    redChannel := new int[width, height];
    greenChannel := new int[width, height];
    blueChannel := new int[width, height];
    grayChannel := new int[width, height];
    for y := 0 to height
      invariant forall i, j :: 0 <= i < width && 0 <= j < y ==>
                  PixelDerived(source[i, j], transformed[i, j], redChannel[i, j], greenChannel[i, j],
                               blueChannel[i, j], grayChannel[i, j])
    {
      SplitRow(source, transformed, redChannel, greenChannel, blueChannel, grayChannel, y);
    }
  }

  /** Row y of SplitImage; the other rows of the five images are left as they were. */
  method SplitRow(source: array2<int>, transformed: array2<int>, redChannel: array2<int>, greenChannel: array2<int>,
                  blueChannel: array2<int>, grayChannel: array2<int>, y: int)
    requires SameSize(transformed, source) && SameSize(redChannel, source) && SameSize(greenChannel, source)
    requires SameSize(blueChannel, source) && SameSize(grayChannel, source) && 0 <= y < source.Length1
    requires source !in {transformed, redChannel, greenChannel, blueChannel, grayChannel}
    requires transformed !in {redChannel, greenChannel, blueChannel, grayChannel}
    requires redChannel !in {greenChannel, blueChannel, grayChannel}
    requires greenChannel !in {blueChannel, grayChannel} && blueChannel != grayChannel
    modifies transformed, redChannel, greenChannel, blueChannel, grayChannel
    ensures forall i :: 0 <= i < source.Length0 ==>
              PixelDerived(source[i, y], transformed[i, y], redChannel[i, y], greenChannel[i, y],
                           blueChannel[i, y], grayChannel[i, y])
    ensures forall i, j :: 0 <= i < source.Length0 && 0 <= j < source.Length1 && j != y ==>
              transformed[i, j] == old(transformed[i, j]) && redChannel[i, j] == old(redChannel[i, j]) &&
              greenChannel[i, j] == old(greenChannel[i, j]) && blueChannel[i, j] == old(blueChannel[i, j]) &&
              grayChannel[i, j] == old(grayChannel[i, j])
  {
    for x := 0 to source.Length0
      invariant forall i :: 0 <= i < x ==>
                  PixelDerived(source[i, y], transformed[i, y], redChannel[i, y], greenChannel[i, y],
                               blueChannel[i, y], grayChannel[i, y])
      invariant forall i, j :: 0 <= i < source.Length0 && 0 <= j < source.Length1 && j != y ==>
                  transformed[i, j] == old(transformed[i, j]) && redChannel[i, j] == old(redChannel[i, j]) &&
                  greenChannel[i, j] == old(greenChannel[i, j]) && blueChannel[i, j] == old(blueChannel[i, j]) &&
                  grayChannel[i, j] == old(grayChannel[i, j])
    {
      var rgb, redPixel, greenPixel, bluePixel, grayPixel := SplitPixel(source[x, y]);
      transformed[x, y] := rgb;
      redChannel[x, y] := redPixel;
      greenChannel[x, y] := greenPixel;
      blueChannel[x, y] := bluePixel;
      grayChannel[x, y] := grayPixel;
    }
  }

  class ColorSpaceModel {
    var originalImage: array2?<int>
    var transformedImage: array2?<int>
    var channelImages: seq<array2<int>>
    var currentTransformation: Option<string>
    var brightness: real
    var contrast: real

    /** The RGB rendition and the red, green, blue and gray channel images, in
        that order, are derived from the original image. */
    predicate RgbApplied()
      reads this, originalImage, transformedImage, channelImages
    {
      originalImage != null && transformedImage != null && |channelImages| == 4 &&
      SameSize(transformedImage, originalImage) &&
      (forall i :: 0 <= i < 4 ==> SameSize(channelImages[i], originalImage)) &&
      currentTransformation == Some("RGB") &&
      forall x, y :: 0 <= x < originalImage.Length0 && 0 <= y < originalImage.Length1 ==>
        PixelDerived(originalImage[x, y], transformedImage[x, y], channelImages[0][x, y], channelImages[1][x, y],
                     channelImages[2][x, y], channelImages[3][x, y])
    }

    constructor ()
      ensures originalImage == null && transformedImage == null && channelImages == []
      ensures currentTransformation == None
      ensures brightness == 0.0 && contrast == 1.0
    {
      originalImage := null;
      transformedImage := null;
      channelImages := [];
      currentTransformation := None;
      brightness := 0.0;
      contrast := 1.0;
    }

    /** Splits the original image into its RGB rendition and four channel
        images; does nothing when there is no original image. */
    method ApplyRgbTransformation()
      modifies this
      ensures originalImage == old(originalImage)
      ensures brightness == old(brightness) && contrast == old(contrast)
      ensures old(originalImage) == null ==>
                transformedImage == old(transformedImage) && channelImages == old(channelImages) &&
                currentTransformation == old(currentTransformation)
      ensures old(originalImage) != null ==>
                fresh(transformedImage) && (forall i :: 0 <= i < |channelImages| ==> fresh(channelImages[i])) &&
                RgbApplied()
    {
      if originalImage != null {
        var transformed, redChannel, greenChannel, blueChannel, grayChannel := SplitImage(originalImage);
        transformedImage := transformed;
        channelImages := [redChannel, greenChannel, blueChannel, grayChannel];
        currentTransformation := Some("RGB");
      }
    }

    /** Loading an image resets the adjustments and, for a non-null image,
        derives the RGB rendition and channel images at once. */
    method SetOriginalImage(image: array2?<int>)
      modifies this
      ensures originalImage == image
      ensures brightness == 0.0 && contrast == 1.0
      ensures image == null ==>
                transformedImage == old(transformedImage) && channelImages == old(channelImages) &&
                currentTransformation == old(currentTransformation)
      ensures image != null ==>
                fresh(transformedImage) && (forall i :: 0 <= i < |channelImages| ==> fresh(channelImages[i])) &&
                RgbApplied()
    {
      originalImage := image;
      ResetAdjustments();
      if originalImage != null {
        ApplyRgbTransformation();
      }
    }

    method ResetAdjustments()
      modifies this
      ensures brightness == 0.0 && contrast == 1.0
      ensures originalImage == old(originalImage) && transformedImage == old(transformedImage)
      ensures channelImages == old(channelImages) && currentTransformation == old(currentTransformation)
    {
      brightness := 0.0;
      contrast := 1.0;
    }

    method SetBrightness(value: real)
      modifies this
      ensures brightness == value && contrast == old(contrast)
      ensures originalImage == old(originalImage) && transformedImage == old(transformedImage)
      ensures channelImages == old(channelImages) && currentTransformation == old(currentTransformation)
    {
      brightness := value;
    }

    method SetContrast(value: real)
      modifies this
      ensures contrast == value && brightness == old(brightness)
      ensures originalImage == old(originalImage) && transformedImage == old(transformedImage)
      ensures channelImages == old(channelImages) && currentTransformation == old(currentTransformation)
    {
      contrast := value;
    }

    method SetCurrentTransformation(name: string)
      modifies this
      ensures currentTransformation == Some(name)
      ensures originalImage == old(originalImage) && transformedImage == old(transformedImage)
      ensures channelImages == old(channelImages)
      ensures brightness == old(brightness) && contrast == old(contrast)
    {
      currentTransformation := Some(name);
    }

    /** Replaces the rendition and nothing else; the channel images are kept,
        so RgbApplied need not hold afterwards. */
    method SetTransformedImage(image: array2?<int>)
      modifies this
      ensures transformedImage == image
      ensures originalImage == old(originalImage) && channelImages == old(channelImages)
      ensures currentTransformation == old(currentTransformation)
      ensures brightness == old(brightness) && contrast == old(contrast)
    {
      transformedImage := image;
    }

    method SetChannelImages(images: seq<array2<int>>)
      modifies this
      ensures channelImages == images
      ensures originalImage == old(originalImage) && transformedImage == old(transformedImage)
      ensures currentTransformation == old(currentTransformation)
      ensures brightness == old(brightness) && contrast == old(contrast)
    {
      channelImages := images;
    }
  }
}
