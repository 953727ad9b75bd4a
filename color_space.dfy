/** Colour-space converters. An RGB image becomes a [height][width][channels]
    tensor of reals; CMY and CMYK tensors can be turned back into an RGB image,
    and any tensor channel can be rendered as a gray image. */
module ColorSpace {
  import opened Raster

  /** A tensor as the converters allocate it: positive height and width and the
      given number of channels. */
  predicate ValidTensor(t: array3<real>, channels: nat) {
    t.Length0 > 0 && t.Length1 > 0 && t.Length2 == channels
  }

  /** Every entry of the tensor lies in [0,1]. */
  predicate TensorInUnit(t: array3<real>)
    reads t
  {
    forall y, x, k :: 0 <= y < t.Length0 && 0 <= x < t.Length1 && 0 <= k < t.Length2 ==> InUnit(t[y, x, k])
  }

  // ---------------------------------------------------------------------
  // Per-pixel conversions

  function CmyOf(c: Color): (v: seq<real>)
    ensures |v| == 3
    ensures ValidColor(c) ==> forall k :: 0 <= k < 3 ==> InUnit(v[k])
  {
    [1.0 - c.r, 1.0 - c.g, 1.0 - c.b]
  }

  /** Key k = 1 - max(r,g,b); the three inks are rescaled by 1 - k, and are all
      zero for pure black. */
  function CmykOf(c: Color): (v: seq<real>)
    ensures |v| == 4
    ensures v[3] == 1.0 - Max3(c.r, c.g, c.b)
    ensures v[3] == 1.0 ==> v[0] == 0.0 && v[1] == 0.0 && v[2] == 0.0
    ensures ValidColor(c) ==> forall k :: 0 <= k < 4 ==> InUnit(v[k])
  {
    var k := 1.0 - Max3(c.r, c.g, c.b);
    if k < 1.0 then
      var m := 1.0 - k;
      RatioInUnit(m - c.r, m);
      RatioInUnit(m - c.g, m);
      RatioInUnit(m - c.b, m);
      [(1.0 - c.r - k) / m, (1.0 - c.g - k) / m, (1.0 - c.b - k) / m, k]
    else
      [0.0, 0.0, 0.0, k]
  }

  /** The BT.601 luma weights (0.299, 0.587, 0.114); I and Q are biased by 0.5
      and clamped for display. */
  function YiqOf(c: Color): (v: seq<real>)
    ensures |v| == 3
    ensures ValidColor(c) ==> forall k :: 0 <= k < 3 ==> InUnit(v[k])
  {
    [0.299 * c.r + 0.587 * c.g + 0.114 * c.b,
     Clamp01(0.596 * c.r - 0.274 * c.g - 0.322 * c.b + 0.5),
     Clamp01(0.211 * c.r - 0.523 * c.g + 0.312 * c.b + 0.5)]
  }

  /** The HSI hue angle, acos(numerator / sqrt(denominator)) / (2*pi), supplied
      from outside: the model knows only that it lies in [0, 1/2]. */
  ghost predicate HueAngleInRange(hueAngle: (real, real) -> real) {
    forall n: real, d: real :: 0.0 <= hueAngle(n, d) <= 0.5
  }

  /** Intensity, saturation and (normalised) hue; the hue is computed only for
      a saturated pixel with a nonzero denominator. */
  function HsiOf(c: Color, hueAngle: (real, real) -> real): (v: seq<real>)
    ensures |v| == 3
    ensures ValidColor(c) && HueAngleInRange(hueAngle) ==> forall k :: 0 <= k < 3 ==> InUnit(v[k])
  {
    var intensity := (c.r + c.g + c.b) / 3.0;
    var min := Min3(c.r, c.g, c.b);
    var saturation := if intensity == 0.0 then 0.0 else 1.0 - min / intensity;
    var numerator := 0.5 * ((c.r - c.g) + (c.r - c.b));
    var denominator := (c.r - c.g) * (c.r - c.g) + (c.r - c.b) * (c.g - c.b);
    var hue :=
      if saturation != 0.0 && denominator != 0.0 then
        (var h := hueAngle(numerator, denominator); if c.b > c.g then 1.0 - h else h)
      else 0.0;
    RatioInUnit(min, intensity);
    [hue, saturation, intensity]
  }

  /** Java's % on doubles: the remainder of truncating division. */
  function JavaRem(a: real, m: real): real
    requires m != 0.0
  {
    a - m * Trunc(a / m) as real
  }

  /** The hue before normalisation, in degrees, for a pixel whose channels are
      not all equal. */
  function HueDegrees(r: real, g: real, b: real): real
    requires Max3(r, g, b) - Min3(r, g, b) != 0.0
  {
    var max := Max3(r, g, b);
    var delta := max - Min3(r, g, b);
    var sector :=
      if max == r then JavaRem((g - b) / delta, 6.0)
      else if max == g then (b - r) / delta + 2.0
      else (r - g) / delta + 4.0;
    var hue := sector * 60.0;
    if hue < 0.0 then hue + 360.0 else hue
  }

  function HsvOf(c: Color): (v: seq<real>)
    ensures |v| == 3
    ensures v[2] == Max3(c.r, c.g, c.b)
  {
    var max := Max3(c.r, c.g, c.b);
    var delta := max - Min3(c.r, c.g, c.b);
    var hue := if delta != 0.0 then HueDegrees(c.r, c.g, c.b) else 0.0;
    var saturation := if max == 0.0 then 0.0 else delta / max;
    [hue / 360.0, saturation, max]
  }

  // ---------------------------------------------------------------------
  // Reconstruction of RGB from tensor entries

  function CmyToRgb(cy: real, mg: real, ye: real): (p: Color)
    ensures ValidColor(p) && p.a == 1.0
  {
    Color(Clamp01(1.0 - cy), Clamp01(1.0 - mg), Clamp01(1.0 - ye), 1.0)
  }

  /** One channel from its ink and the key: (1 - ink)(1 - k), clamped. */
  function InkToChannel(ink: real, k: real): (v: real)
    ensures InUnit(v)
  {
    Clamp01((1.0 - ink) * (1.0 - k))
  }

  function CmykToRgb(cy: real, mg: real, ye: real, k: real): (p: Color)
    ensures ValidColor(p) && p.a == 1.0
  {
    Color(InkToChannel(cy, k), InkToChannel(mg, k), InkToChannel(ye, k), 1.0)
  }

  // ---------------------------------------------------------------------
  // Properties of the per-pixel conversions

  /** RGB -> CMY -> RGB gives back the colour channels, made opaque. */
  lemma CmyRoundTrip(c: Color)
    requires ValidColor(c)
    ensures var v := CmyOf(c); CmyToRgb(v[0], v[1], v[2]) == Color(c.r, c.g, c.b, 1.0)
  {
  }

  /** (1 - c)(1 - k) recovers r, and likewise g and b, for every valid colour. */
  lemma CmykRoundTrip(c: Color)
    requires ValidColor(c)
    ensures var v := CmykOf(c); CmykToRgb(v[0], v[1], v[2], v[3]) == Color(c.r, c.g, c.b, 1.0)
  {
    var v := CmykOf(c);
    var k := 1.0 - Max3(c.r, c.g, c.b);
    if k < 1.0 {
      InkRoundTrip(c.r, k, v[0]);
      InkRoundTrip(c.g, k, v[1]);
      InkRoundTrip(c.b, k, v[2]);
    } else {
      assert c.r == 0.0 && c.g == 0.0 && c.b == 0.0;
    }
  }

  /** One channel of the CMYK round trip: the ink (1 - ch - k) / (1 - k),
      scaled back by 1 - k, is the channel again. */
  lemma InkRoundTrip(ch: real, k: real, ink: real)
    requires InUnit(ch) && k < 1.0 && ink == (1.0 - ch - k) / (1.0 - k)
    ensures InkToChannel(ink, k) == ch
  {
    var m := 1.0 - k;
    assert ink * m == m - ch;
  }

  /** Pure black has key 1 and no ink. */
  lemma CmykOfBlack()
    ensures CmykOf(BLACK) == [0.0, 0.0, 0.0, 1.0]
  {
  }

  /** Saturation is delta / max, zero for black, and in [0,1]; value is the max. */
  lemma HsvSaturationValue(c: Color)
    requires ValidColor(c)
    ensures var v := HsvOf(c); InUnit(v[1]) && InUnit(v[2])
    ensures Max3(c.r, c.g, c.b) == 0.0 ==> HsvOf(c)[1] == 0.0
    ensures Max3(c.r, c.g, c.b) != 0.0 ==>
              HsvOf(c)[1] == (Max3(c.r, c.g, c.b) - Min3(c.r, c.g, c.b)) / Max3(c.r, c.g, c.b)
  {
    var max := Max3(c.r, c.g, c.b);
    if max != 0.0 {
      RatioInUnit(max - Min3(c.r, c.g, c.b), max);
    }
  }

  /** The remainder by 6 leaves any value in [-1,1] unchanged. */
  lemma JavaRemSmall(a: real)
    requires -1.0 <= a <= 1.0
    ensures JavaRem(a, 6.0) == a
  {
    assert Trunc(a / 6.0) == 0;
  }

  /** |x - y| <= delta gives (x - y) / delta in [-1,1]. */
  lemma SmallRatio(d: real, delta: real)
    requires 0.0 < delta && -delta <= d <= delta
    ensures -1.0 <= d / delta <= 1.0
  {
    assert d / delta * delta == d;
  }

  /** The hue in degrees lies in [0,360): in the red sector |g - b| <= delta
      makes the remainder by 6 the identity. */
  lemma HueDegreesInRange(r: real, g: real, b: real)
    requires InUnit(r) && InUnit(g) && InUnit(b)
    requires Max3(r, g, b) - Min3(r, g, b) != 0.0
    ensures 0.0 <= HueDegrees(r, g, b) < 360.0
  {
    var max := Max3(r, g, b);
    var delta := max - Min3(r, g, b);
    if max == r {
      SmallRatio(g - b, delta);
      JavaRemSmall((g - b) / delta);
    } else if max == g {
      SmallRatio(b - r, delta);
    } else {
      SmallRatio(r - g, delta);
    }
  }

  /** The normalised HSV hue lies in [0,1), and is 0 for an achromatic pixel. */
  lemma HsvHueInRange(c: Color)
    requires ValidColor(c)
    ensures 0.0 <= HsvOf(c)[0] < 1.0
    ensures Max3(c.r, c.g, c.b) == Min3(c.r, c.g, c.b) ==> HsvOf(c)[0] == 0.0
  {
    if Max3(c.r, c.g, c.b) - Min3(c.r, c.g, c.b) != 0.0 {
      HueDegreesInRange(c.r, c.g, c.b);
    }
  }

  /** Every HSV component lies in [0,1]. */
  lemma HsvInUnit(c: Color)
    requires ValidColor(c)
    ensures forall k :: 0 <= k < 3 ==> InUnit(HsvOf(c)[k])
  {
    HsvSaturationValue(c);
    HsvHueInRange(c);
  }

  /** Intensity is the channel mean; saturation is zero for black and otherwise
      1 - min / intensity; an unsaturated pixel has hue 0. */
  lemma HsiComponents(c: Color, hueAngle: (real, real) -> real)
    requires ValidColor(c)
    ensures var v := HsiOf(c, hueAngle);
      v[2] == (c.r + c.g + c.b) / 3.0 &&
      (v[2] == 0.0 ==> v[1] == 0.0) &&
      (v[2] != 0.0 ==> v[1] == 1.0 - Min3(c.r, c.g, c.b) / v[2] && InUnit(v[1])) &&
      (v[1] == 0.0 ==> v[0] == 0.0)
  {
    var intensity := (c.r + c.g + c.b) / 3.0;
    if intensity != 0.0 {
      RatioInUnit(Min3(c.r, c.g, c.b), intensity);
    }
  }

  // ---------------------------------------------------------------------
  // Converters: fill a fresh tensor row by row

  method ConvertRgbToCmy(img: array2<Color>) returns (t: array3<real>)
    requires ValidImage(img)
    ensures fresh(t) && ValidTensor(t, 3) && t.Length0 == img.Length1 && t.Length1 == img.Length0
    ensures TensorInUnit(t)
    ensures forall y, x, k :: 0 <= y < t.Length0 && 0 <= x < t.Length1 && 0 <= k < 3 ==>
              t[y, x, k] == CmyOf(img[x, y])[k]
  {
    var width, height := img.Length0, img.Length1;
    t := new real[height, width, 3];
    for y := 0 to height
      invariant forall j, i, k :: 0 <= j < y && 0 <= i < width && 0 <= k < 3 ==> t[j, i, k] == CmyOf(img[i, j])[k]
    {
      for x := 0 to width
        invariant forall j, i, k :: 0 <= j < y && 0 <= i < width && 0 <= k < 3 ==> t[j, i, k] == CmyOf(img[i, j])[k]
        invariant forall i, k :: 0 <= i < x && 0 <= k < 3 ==> t[y, i, k] == CmyOf(img[i, y])[k]
      {
        var color := img[x, y];
        t[y, x, 0] := 1.0 - color.r;
        t[y, x, 1] := 1.0 - color.g;
        t[y, x, 2] := 1.0 - color.b;
      }
    }
  }

  method ConvertRgbToCmyk(img: array2<Color>) returns (t: array3<real>)
    requires ValidImage(img)
    ensures fresh(t) && ValidTensor(t, 4) && t.Length0 == img.Length1 && t.Length1 == img.Length0
    ensures TensorInUnit(t)
    ensures forall y, x, k :: 0 <= y < t.Length0 && 0 <= x < t.Length1 && 0 <= k < 4 ==>
              t[y, x, k] == CmykOf(img[x, y])[k]
  {
    var width, height := img.Length0, img.Length1;
    t := new real[height, width, 4];
    for y := 0 to height
      invariant forall j, i, k :: 0 <= j < y && 0 <= i < width && 0 <= k < 4 ==> t[j, i, k] == CmykOf(img[i, j])[k]
    {
      for x := 0 to width
        invariant forall j, i, k :: 0 <= j < y && 0 <= i < width && 0 <= k < 4 ==> t[j, i, k] == CmykOf(img[i, j])[k]
        invariant forall i, k :: 0 <= i < x && 0 <= k < 4 ==> t[y, i, k] == CmykOf(img[i, y])[k]
      {
        var color := img[x, y];
        var k := 1.0 - Max3(color.r, color.g, color.b);
        if k < 1.0 {
          t[y, x, 0] := (1.0 - color.r - k) / (1.0 - k);
          t[y, x, 1] := (1.0 - color.g - k) / (1.0 - k);
          t[y, x, 2] := (1.0 - color.b - k) / (1.0 - k);
        } else {
          t[y, x, 0] := 0.0;
          t[y, x, 1] := 0.0;
          t[y, x, 2] := 0.0;
        }
        t[y, x, 3] := k;
      }
    }
  }

  method ConvertRgbToYiq(img: array2<Color>) returns (t: array3<real>)
    requires ValidImage(img)
    ensures fresh(t) && ValidTensor(t, 3) && t.Length0 == img.Length1 && t.Length1 == img.Length0
    ensures TensorInUnit(t)
    ensures forall y, x, k :: 0 <= y < t.Length0 && 0 <= x < t.Length1 && 0 <= k < 3 ==>
              t[y, x, k] == YiqOf(img[x, y])[k]
  {
    var width, height := img.Length0, img.Length1;
    t := new real[height, width, 3];
    for y := 0 to height
      invariant forall j, i, k :: 0 <= j < y && 0 <= i < width && 0 <= k < 3 ==> t[j, i, k] == YiqOf(img[i, j])[k]
    {
      for x := 0 to width
        invariant forall j, i, k :: 0 <= j < y && 0 <= i < width && 0 <= k < 3 ==> t[j, i, k] == YiqOf(img[i, j])[k]
        invariant forall i, k :: 0 <= i < x && 0 <= k < 3 ==> t[y, i, k] == YiqOf(img[i, y])[k]
      {
        var color := img[x, y];
        var r, g, b := color.r, color.g, color.b;
        t[y, x, 0] := 0.299 * r + 0.587 * g + 0.114 * b;
        t[y, x, 1] := Clamp01(0.596 * r - 0.274 * g - 0.322 * b + 0.5);
        t[y, x, 2] := Clamp01(0.211 * r - 0.523 * g + 0.312 * b + 0.5);
      }
    }
  }

  method ConvertRgbToHsi(img: array2<Color>, hueAngle: (real, real) -> real) returns (t: array3<real>)
    requires ValidImage(img)
    requires HueAngleInRange(hueAngle)
    ensures fresh(t) && ValidTensor(t, 3) && t.Length0 == img.Length1 && t.Length1 == img.Length0
    ensures TensorInUnit(t)
    ensures forall y, x, k :: 0 <= y < t.Length0 && 0 <= x < t.Length1 && 0 <= k < 3 ==>
              t[y, x, k] == HsiOf(img[x, y], hueAngle)[k]
  {
    var width, height := img.Length0, img.Length1;
    t := new real[height, width, 3];
    var hsi := c => HsiOf(c, hueAngle);
    for y := 0 to height
      invariant forall j, i, k :: 0 <= j < y && 0 <= i < width && 0 <= k < 3 ==> t[j, i, k] == HsiOf(img[i, j], hueAngle)[k]
    {
      FillRow(img, t, y, hsi);
    }
  }

  method ConvertRgbToHsv(img: array2<Color>) returns (t: array3<real>)
    requires ValidImage(img)
    ensures fresh(t) && ValidTensor(t, 3) && t.Length0 == img.Length1 && t.Length1 == img.Length0
    ensures TensorInUnit(t)
    ensures forall y, x, k :: 0 <= y < t.Length0 && 0 <= x < t.Length1 && 0 <= k < 3 ==>
              t[y, x, k] == HsvOf(img[x, y])[k]
  {
    var width, height := img.Length0, img.Length1;
    t := new real[height, width, 3];
    for y := 0 to height
      invariant forall j, i, k :: 0 <= j < y && 0 <= i < width && 0 <= k < 3 ==> t[j, i, k] == HsvOf(img[i, j])[k]
    {
      FillRow(img, t, y, HsvOf);
    }
    forall y, x, k | 0 <= y < height && 0 <= x < width && 0 <= k < 3
      ensures InUnit(t[y, x, k])
    {
      HsvInUnit(img[x, y]);
    }
  }

  /** Row y of a converter that writes the three components of f(pixel). */
  method FillRow(img: array2<Color>, t: array3<real>, y: int, f: Color -> seq<real>)
    requires t.Length0 == img.Length1 && t.Length1 == img.Length0 && t.Length2 == 3 && 0 <= y < t.Length0
    requires forall c :: |f(c)| == 3
    modifies t
    ensures forall i, k :: 0 <= i < t.Length1 && 0 <= k < 3 ==> t[y, i, k] == f(img[i, y])[k]
    ensures forall j, i, k :: 0 <= j < t.Length0 && 0 <= i < t.Length1 && 0 <= k < 3 && j != y ==>
              t[j, i, k] == old(t[j, i, k])
  {
    for x := 0 to t.Length1
      invariant forall i, k :: 0 <= i < x && 0 <= k < 3 ==> t[y, i, k] == f(img[i, y])[k]
      invariant forall j, i, k :: 0 <= j < t.Length0 && 0 <= i < t.Length1 && 0 <= k < 3 && j != y ==>
                  t[j, i, k] == old(t[j, i, k])
    {
      var v := f(img[x, y]);
      t[y, x, 0] := v[0];
      t[y, x, 1] := v[1];
      t[y, x, 2] := v[2];
    }
  }

  // ---------------------------------------------------------------------
  // Renders

  method CreateCmyImage(t: array3<real>) returns (out: array2<Color>)
    requires t.Length0 > 0 && t.Length1 > 0 && t.Length2 >= 3
    ensures fresh(out) && ValidImage(out) && out.Length0 == t.Length1 && out.Length1 == t.Length0
    ensures forall x, y :: 0 <= x < out.Length0 && 0 <= y < out.Length1 ==>
              out[x, y] == CmyToRgb(t[y, x, 0], t[y, x, 1], t[y, x, 2])
  {
    var height, width := t.Length0, t.Length1;
    out := new Color[width, height];
    for y := 0 to height
      invariant forall i, j :: 0 <= i < width && 0 <= j < y ==> out[i, j] == CmyToRgb(t[j, i, 0], t[j, i, 1], t[j, i, 2])
    {
      for x := 0 to width
        invariant forall i, j :: 0 <= i < width && 0 <= j < y ==> out[i, j] == CmyToRgb(t[j, i, 0], t[j, i, 1], t[j, i, 2])
        invariant forall i :: 0 <= i < x ==> out[i, y] == CmyToRgb(t[y, i, 0], t[y, i, 1], t[y, i, 2])
      {
        var r := 1.0 - t[y, x, 0];
        var g := 1.0 - t[y, x, 1];
        var b := 1.0 - t[y, x, 2];
        out[x, y] := Color(Clamp01(r), Clamp01(g), Clamp01(b), 1.0);
      }
    }
  }

  method CreateCmykImage(t: array3<real>) returns (out: array2<Color>)
    requires t.Length0 > 0 && t.Length1 > 0 && t.Length2 >= 4
    ensures fresh(out) && ValidImage(out) && out.Length0 == t.Length1 && out.Length1 == t.Length0
    ensures forall x, y :: 0 <= x < out.Length0 && 0 <= y < out.Length1 ==>
              out[x, y] == CmykToRgb(t[y, x, 0], t[y, x, 1], t[y, x, 2], t[y, x, 3])
  {
    var height, width := t.Length0, t.Length1;
    out := new Color[width, height];
    for y := 0 to height
      invariant forall i, j :: 0 <= i < width && 0 <= j < y ==>
                  out[i, j] == CmykToRgb(t[j, i, 0], t[j, i, 1], t[j, i, 2], t[j, i, 3])
    {
      for x := 0 to width
        invariant forall i, j :: 0 <= i < width && 0 <= j < y ==>
                    out[i, j] == CmykToRgb(t[j, i, 0], t[j, i, 1], t[j, i, 2], t[j, i, 3])
        invariant forall i :: 0 <= i < x ==> out[i, y] == CmykToRgb(t[y, i, 0], t[y, i, 1], t[y, i, 2], t[y, i, 3])
      {
        var c := t[y, x, 0];
        var m := t[y, x, 1];
        var yellow := t[y, x, 2];
        var k := t[y, x, 3];
        var r := InkToChannel(c, k);
        var g := InkToChannel(m, k);
        var b := InkToChannel(yellow, k);
        out[x, y] := Color(r, g, b, 1.0);
      }
    }
  }

  /** The chosen channel as an opaque gray, without clamping: the JavaFX colour
      constructor demands that channel's entries lie in [0,1], which every
      converter above guarantees (TensorInUnit). */
  method CreateChannelImage(t: array3<real>, channelIndex: nat) returns (out: array2<Color>)
    requires t.Length0 > 0 && t.Length1 > 0 && channelIndex < t.Length2
    requires forall y, x :: 0 <= y < t.Length0 && 0 <= x < t.Length1 ==> InUnit(t[y, x, channelIndex])
    ensures fresh(out) && ValidImage(out) && out.Length0 == t.Length1 && out.Length1 == t.Length0
    ensures forall x, y :: 0 <= x < out.Length0 && 0 <= y < out.Length1 ==>
              out[x, y] == Color(t[y, x, channelIndex], t[y, x, channelIndex], t[y, x, channelIndex], 1.0)
  {
    var height, width := t.Length0, t.Length1;
    out := new Color[width, height];
    for y := 0 to height
      invariant forall i, j :: 0 <= i < width && 0 <= j < y ==> out[i, j] == GrayColor(t[j, i, channelIndex])
    {
      for x := 0 to width
        invariant forall i, j :: 0 <= i < width && 0 <= j < y ==> out[i, j] == GrayColor(t[j, i, channelIndex])
        invariant forall i :: 0 <= i < x ==> out[i, y] == GrayColor(t[y, i, channelIndex])
      {
        var value := t[y, x, channelIndex];
        out[x, y] := Color(value, value, value, 1.0);
      }
    }
  }
}
