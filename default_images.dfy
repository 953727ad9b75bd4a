/** The synthetic test images the workbench opens with: a colour gradient and
    three horizontal red, green and blue bands, both 300 by 200 pixels. */
module DefaultImages {
  import opened Raster

  const DEFAULT_WIDTH: int := 300
  const DEFAULT_HEIGHT: int := 200

  /** Integer division of the height by three: 66 rows per band. */
  const BAND_HEIGHT: int := DEFAULT_HEIGHT / 3

  /** The fraction of the image width to the left of column x. */
  function Intensity(x: int): (v: real)
    requires 0 <= x < DEFAULT_WIDTH
    ensures 0.0 <= v < 1.0
    ensures v * DEFAULT_WIDTH as real == x as real
  {
    x as real / DEFAULT_WIDTH as real
  }

  /** Pixel (x, y) of the gradient image: red grows with the column, green with
      the row, and blue is the sine wave sin((x + y) / 50) moved into [0,1]. */
  function GradientColor(x: int, y: int, sin: real -> real): (c: Color)
    requires 0 <= x < DEFAULT_WIDTH && 0 <= y < DEFAULT_HEIGHT
    requires forall t :: -1.0 <= sin(t) <= 1.0
    ensures ValidColor(c) && c.a == 1.0
    ensures c.r < 1.0 && c.g < 1.0
    ensures c.r * DEFAULT_WIDTH as real == x as real && c.g * DEFAULT_HEIGHT as real == y as real
    ensures 2.0 * c.b - 1.0 == sin((x + y) as real / 50.0)
  {
    var red := Intensity(x);
    var green := y as real / DEFAULT_HEIGHT as real;
    var blue := sin((x + y) as real / 50.0) * 0.5 + 0.5;
    Color(red, green, blue, 1.0)
  }

  /** Pixel (x, y) of the band image: the top band is red, the middle one green
      and the rest blue, each fading in from black on the left. */
  function BandColor(x: int, y: int): (c: Color)
    requires 0 <= x < DEFAULT_WIDTH && 0 <= y < DEFAULT_HEIGHT
    ensures ValidColor(c) && c.a == 1.0
    ensures c.r + c.g + c.b == Intensity(x)
  {
    var intensity := Intensity(x);
    if y < BAND_HEIGHT then Color(intensity, 0.0, 0.0, 1.0)
    else if y < BAND_HEIGHT * 2 then Color(0.0, intensity, 0.0, 1.0)
    else Color(0.0, 0.0, intensity, 1.0)
  }

  /** Fills a fresh 300 x 200 image column by column with the gradient. */
  method CreateDefaultImage(sin: real -> real) returns (img: array2<Color>)
    requires forall t :: -1.0 <= sin(t) <= 1.0
    ensures fresh(img) && img.Length0 == DEFAULT_WIDTH && img.Length1 == DEFAULT_HEIGHT
    ensures ValidImage(img)
    ensures forall x, y :: 0 <= x < DEFAULT_WIDTH && 0 <= y < DEFAULT_HEIGHT ==> img[x, y] == GradientColor(x, y, sin)
  {
    img := new Color[DEFAULT_WIDTH, DEFAULT_HEIGHT];
    for x := 0 to DEFAULT_WIDTH
      invariant forall i, j :: 0 <= i < x && 0 <= j < DEFAULT_HEIGHT ==> img[i, j] == GradientColor(i, j, sin)
    {
      for y := 0 to DEFAULT_HEIGHT
        invariant forall i, j :: 0 <= i < x && 0 <= j < DEFAULT_HEIGHT ==> img[i, j] == GradientColor(i, j, sin)
        invariant forall j :: 0 <= j < y ==> img[x, j] == GradientColor(x, j, sin)
      {
        img[x, y] := GradientColor(x, y, sin);
      }
    }
  }

  /** Fills a fresh 300 x 200 image column by column with the three bands. */
  method CreateRgbBandsImage() returns (img: array2<Color>)
    ensures fresh(img) && img.Length0 == DEFAULT_WIDTH && img.Length1 == DEFAULT_HEIGHT
    ensures ValidImage(img)
    ensures forall x, y :: 0 <= x < DEFAULT_WIDTH && 0 <= y < DEFAULT_HEIGHT ==> img[x, y] == BandColor(x, y)
  {
    img := new Color[DEFAULT_WIDTH, DEFAULT_HEIGHT];
    var bandHeight := DEFAULT_HEIGHT / 3;
    for x := 0 to DEFAULT_WIDTH
      invariant forall i, j :: 0 <= i < x && 0 <= j < DEFAULT_HEIGHT ==> img[i, j] == BandColor(i, j)
    {
      for y := 0 to DEFAULT_HEIGHT
        invariant forall i, j :: 0 <= i < x && 0 <= j < DEFAULT_HEIGHT ==> img[i, j] == BandColor(i, j)
        invariant forall j :: 0 <= j < y ==> img[x, j] == BandColor(x, j)
      {
        var intensity := x as real / DEFAULT_WIDTH as real;
        var color;
        if y < bandHeight {
          color := Color(intensity, 0.0, 0.0, 1.0);
        } else if y < bandHeight * 2 {
          color := Color(0.0, intensity, 0.0, 1.0);
        } else {
          color := Color(0.0, 0.0, intensity, 1.0);
        }
        img[x, y] := color;
      }
    }
  }

  // ---------------------------------------------------------------------
  // Properties of the band image

  /** The colour with only channel `band` (0 red, 1 green, 2 blue) set to v. */
  function Primary(band: int, v: real): (c: Color)
    requires 0 <= band < 3
    ensures c.a == 1.0 && c.r + c.g + c.b == v
  {
    if band == 0 then Color(v, 0.0, 0.0, 1.0)
    else if band == 1 then Color(0.0, v, 0.0, 1.0)
    else Color(0.0, 0.0, v, 1.0)
  }

  /** Row y lies in band y / 66, except that the two rows below the third full
      band (198 and 199) are added to the blue band. */
  lemma BandIsRowOverBandHeight(x: int, y: int)
    requires 0 <= x < DEFAULT_WIDTH && 0 <= y < DEFAULT_HEIGHT
    ensures BandColor(x, y) == Primary(if y / BAND_HEIGHT < 3 then y / BAND_HEIGHT else 2, Intensity(x))
  {
    if y < 66 {
      assert y / 66 == 0;
    } else if y < 132 {
      assert y / 66 == 1;
    } else if y < 198 {
      assert y / 66 == 2;
    } else {
      assert y / 66 == 3;
    }
  }

  /** The bands are 66, 66 and 68 rows tall. */
  lemma BandHeights(x: int)
    requires 0 < x < DEFAULT_WIDTH
    ensures BandColor(x, 65).r > 0.0 && BandColor(x, 66).r == 0.0 && BandColor(x, 66).g > 0.0
    ensures BandColor(x, 131).g > 0.0 && BandColor(x, 132).g == 0.0 && BandColor(x, 132).b > 0.0
    ensures BandColor(x, DEFAULT_HEIGHT - 1).b > 0.0
  {
  }

  /** Within a band the colour depends only on the column and brightens from
      left to right; the first column is black. */
  lemma BandBrightensRightward(x1: int, x2: int, y: int)
    requires 0 <= x1 < x2 < DEFAULT_WIDTH && 0 <= y < DEFAULT_HEIGHT
    ensures BandColor(x1, y).r <= BandColor(x2, y).r
    ensures BandColor(x1, y).g <= BandColor(x2, y).g
    ensures BandColor(x1, y).b <= BandColor(x2, y).b
    ensures Intensity(x1) < Intensity(x2)
    ensures BandColor(0, y) == BLACK
  {
  }
}
