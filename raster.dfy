/** The image buffer shared by every operator: a colour with four normalised
    channels, two-dimensional rasters indexed [x, y], and the numeric helpers
    (clamping, Java's truncating cast, Math.round) the operators use. */
module Raster {

  /** A JavaFX colour: red, green, blue and opacity, as exact reals. */
  datatype Color = Color(r: real, g: real, b: real, a: real)

  predicate InUnit(v: real) {
    0.0 <= v <= 1.0
  }

  /** The JavaFX Color constructor accepts only channels in [0,1]; every colour
      read from an image satisfies this. */
  predicate ValidColor(c: Color) {
    InUnit(c.r) && InUnit(c.g) && InUnit(c.b) && InUnit(c.a)
  }

  const WHITE: Color := Color(1.0, 1.0, 1.0, 1.0)
  const BLACK: Color := Color(0.0, 0.0, 0.0, 1.0)
  const TRANSPARENT: Color := Color(0.0, 0.0, 0.0, 0.0)
  const RED: Color := Color(1.0, 0.0, 0.0, 1.0)

  /** Color.gray(v): an opaque gray of intensity v. */
  function GrayColor(v: real): (c: Color)
    requires InUnit(v)
    ensures ValidColor(c) && c.a == 1.0
  {
    Color(v, v, v, 1.0)
  }

  /** Color.grayRgb(n): an opaque gray of 8-bit level n. */
  function GrayRgb(n: int): (c: Color)
    requires 0 <= n <= 255
    ensures ValidColor(c) && c.a == 1.0
    ensures c == GrayColor(n as real / 255.0)
  {
    GrayColor(n as real / 255.0)
  }

  /** A JavaFX image: both dimensions positive (WritableImage refuses any other
      size) and every pixel a valid colour. */
  predicate ValidImage(img: array2<Color>)
    reads img
  {
    img.Length0 > 0 && img.Length1 > 0 &&
    forall x, y :: 0 <= x < img.Length0 && 0 <= y < img.Length1 ==> ValidColor(img[x, y])
  }

  predicate SameSize<S, T>(a: array2<S>, b: array2<T>) {
    a.Length0 == b.Length0 && a.Length1 == b.Length1
  }

  /** Math.max(lo, Math.min(hi, v)). */
  function Clamp(v: real, lo: real, hi: real): (r: real)
    requires lo <= hi
    ensures lo <= r <= hi
    ensures lo <= v <= hi ==> r == v
    ensures v < lo ==> r == lo
    ensures hi < v ==> r == hi
  {
    if v < lo then lo else if hi < v then hi else v
  }

  /** Math.max(0, Math.min(1, v)). */
  function Clamp01(v: real): (r: real)
    ensures InUnit(r)
    ensures InUnit(v) ==> r == v
  {
    Clamp(v, 0.0, 1.0)
  }

  /** Math.max(lo, Math.min(hi, i)) on integers. */
  function ClampIndex(i: int, lo: int, hi: int): (r: int)
    requires lo <= hi
    ensures lo <= r <= hi
    ensures lo <= i <= hi ==> r == i
  {
    if i < lo then lo else if hi < i then hi else i
  }

  /** Java's (int) cast of a double: truncation toward zero. */
  function Trunc(v: real): (n: int)
    ensures 0.0 <= v ==> 0 <= n && n as real <= v < n as real + 1.0
    ensures v < 0.0 ==> n <= 0 && n as real - 1.0 < v <= n as real
  {
    if 0.0 <= v then v.Floor else -((-v).Floor)
  }

  /** Math.round: the nearest integer, halves rounded up. */
  function Round(v: real): (n: int)
    ensures n as real - 0.5 <= v < n as real + 0.5
  {
    (v + 0.5).Floor
  }

  lemma TruncMonotone(u: real, v: real)
    requires 0.0 <= u <= v
    ensures Trunc(u) <= Trunc(v)
  {
  }

  lemma RoundMonotone(u: real, v: real)
    requires u <= v
    ensures Round(u) <= Round(v)
  {
  }

  function Max3(a: real, b: real, c: real): real {
    if a < b then (if b < c then c else b) else (if a < c then c else a)
  }

  function Min3(a: real, b: real, c: real): real {
    if b < a then (if c < b then c else b) else (if c < a then c else a)
  }

  /** a / b lies in [0,1] when 0 <= a <= b and b > 0. */
  lemma RatioInUnit(a: real, b: real)
    ensures 0.0 <= a <= b && 0.0 < b ==> InUnit(a / b)
  {
    if 0.0 < b {
      assert a / b * b == a;
    }
  }

  /** Multiplication distributes over a sum of two terms. */
  lemma Distribute(v: real, a: real, b: real)
    ensures v * (a + b) == v * a + v * b
  {
  }
}
