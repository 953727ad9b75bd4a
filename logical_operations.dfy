/** Pixel-wise Boolean and relational operators between two images. Both
    operands are first binarized at threshold 0.5; a pixel counts as true
    exactly when its binarized colour is white. */
module LogicalOperations {
  import opened Raster
  import opened ImageProcessing

  const DEFAULT_THRESHOLD: real := 0.5

  /** The binary operators offered on pairs of images. */
  datatype LogicalOp =
    | And | Or | Xor
    | AreEqual | AreNotEqual
    | IsGreater | IsGreaterOrEqual | IsLess | IsLessOrEqual

  /** The Boolean function each operator applies to a pair of pixels. */
  function Evaluate(op: LogicalOp, a: bool, b: bool): bool {
    match op
    case And => a && b
    case Or => a || b
    case Xor => a != b
    case AreEqual => a == b
    case AreNotEqual => a != b
    case IsGreater => a && !b
    case IsGreaterOrEqual => a || !b
    case IsLess => !a && b
    case IsLessOrEqual => !a || b
  }

  /** A pixel read as a bit: 1 for white, 0 for black. */
  function Bit(a: bool): int {
    if a then 1 else 0
  }

  /** The relational operators compare the two pixels as bits (white = 1,
      black = 0), and the equality operators are the complement pair of xor. */
  lemma RelationalOperatorsCompareBits(a: bool, b: bool)
    ensures Evaluate(IsGreater, a, b) <==> Bit(a) > Bit(b)
    ensures Evaluate(IsGreaterOrEqual, a, b) <==> Bit(a) >= Bit(b)
    ensures Evaluate(IsLess, a, b) <==> Bit(a) < Bit(b)
    ensures Evaluate(IsLessOrEqual, a, b) <==> Bit(a) <= Bit(b)
    ensures Evaluate(AreEqual, a, b) <==> Bit(a) == Bit(b)
    ensures Evaluate(AreNotEqual, a, b) <==> Evaluate(Xor, a, b)
  {
  }

  /** Whether a colour reads as true after binarization at 0.5. */
  predicate IsOn(c: Color) {
    BinarizePixel(c, DEFAULT_THRESHOLD) == WHITE
  }

  /** The white/black pixel of one Boolean. */
  function FromBool(v: bool): (c: Color)
    ensures ValidColor(c) && (c == WHITE <==> v)
  {
    if v then WHITE else BLACK
  }

  /** The output pixel of a binary operator. */
  function LogicPixel(op: LogicalOp, ca: Color, cb: Color): Color {
    FromBool(Evaluate(op, IsOn(ca), IsOn(cb)))
  }

  /** The output pixel of `not`. */
  function NotPixel(c: Color): Color {
    FromBool(!IsOn(c))
  }

  /** A pixel is on exactly when its channel average reaches the threshold. */
  lemma IsOnMeansBright(c: Color)
    ensures IsOn(c) <==> (c.r + c.g + c.b) / 3.0 >= DEFAULT_THRESHOLD
  {
  }

  /** Applying `not` twice gives back the binarized image. */
  lemma NotTwiceIsBinarize(c: Color)
    ensures NotPixel(NotPixel(c)) == BinarizePixel(c, DEFAULT_THRESHOLD)
  {
  }

  /** Binarizing a white or black pixel reads back the Boolean it stands for. */
  lemma IsOnFromBool(v: bool)
    ensures IsOn(FromBool(v)) == v
  {
    if v {
      assert BinarizePixel(WHITE, DEFAULT_THRESHOLD) == WHITE;
    } else {
      assert BinarizePixel(BLACK, DEFAULT_THRESHOLD) == BLACK;
    }
  }

  /** De Morgan on images: not (A and B) = (not A) or (not B), and dually. */
  lemma DeMorgan(ca: Color, cb: Color)
    ensures NotPixel(LogicPixel(And, ca, cb)) == LogicPixel(Or, NotPixel(ca), NotPixel(cb))
    ensures NotPixel(LogicPixel(Or, ca, cb)) == LogicPixel(And, NotPixel(ca), NotPixel(cb))
  {
    var a, b := IsOn(ca), IsOn(cb);
    IsOnFromBool(a && b);
    IsOnFromBool(a || b);
    IsOnFromBool(!a);
    IsOnFromBool(!b);
  }

  /** An image compared with itself: xor is all black, equality all white,
      and A >= A holds everywhere. */
  lemma SelfComparison(c: Color)
    ensures LogicPixel(Xor, c, c) == BLACK
    ensures LogicPixel(AreEqual, c, c) == WHITE
    ensures LogicPixel(IsGreaterOrEqual, c, c) == WHITE
    ensures LogicPixel(IsGreater, c, c) == BLACK
  {
  }

  /** xor and areNotEqual give the same pixel, and areEqual is its complement;
      isGreaterOrEqual is the complement of isLess, and isLessOrEqual the
      complement of isGreater. */
  lemma ComplementPairs(ca: Color, cb: Color)
    ensures LogicPixel(AreNotEqual, ca, cb) == LogicPixel(Xor, ca, cb)
    ensures LogicPixel(AreEqual, ca, cb) == NotPixel(LogicPixel(Xor, ca, cb))
    ensures LogicPixel(IsGreaterOrEqual, ca, cb) == NotPixel(LogicPixel(IsLess, ca, cb))
    ensures LogicPixel(IsLessOrEqual, ca, cb) == NotPixel(LogicPixel(IsGreater, ca, cb))
  {
    var a, b := IsOn(ca), IsOn(cb);
    IsOnFromBool(a != b);
    IsOnFromBool(!a && b);
    IsOnFromBool(a && !b);
  }

  /** Pixel (x, y) of a chessboard of single-pixel squares; `phase` says
      whether the square at the origin is white. */
  function Chessboard(phase: bool, x: int, y: int): (c: Color)
    ensures c == WHITE || c == BLACK
    ensures IsOn(c) <==> ((x + y) % 2 == 0) == phase
  {
    IsOnFromBool(((x + y) % 2 == 0) == phase);
    FromBool(((x + y) % 2 == 0) == phase)
  }

  /** The two complementary chessboards: their and is all black, their or all
      white, and their xor all white. */
  lemma ComplementaryChessboards(x: int, y: int)
    ensures LogicPixel(And, Chessboard(true, x, y), Chessboard(false, x, y)) == BLACK
    ensures LogicPixel(Or, Chessboard(true, x, y), Chessboard(false, x, y)) == WHITE
    ensures LogicPixel(Xor, Chessboard(true, x, y), Chessboard(false, x, y)) == WHITE
  {
  }

  /** Binarizes both operands and combines them pixel by pixel over the
      overlap of their sizes. */
  method ApplyLogic(op: LogicalOp, imageA: array2<Color>, imageB: array2<Color>) returns (out: array2<Color>)
    requires ValidImage(imageA) && ValidImage(imageB)
    ensures fresh(out) && ValidImage(out)
    ensures out.Length0 == (if imageA.Length0 <= imageB.Length0 then imageA.Length0 else imageB.Length0)
    ensures out.Length1 == (if imageA.Length1 <= imageB.Length1 then imageA.Length1 else imageB.Length1)
    ensures forall x, y :: 0 <= x < out.Length0 && 0 <= y < out.Length1 ==>
              (out[x, y] == WHITE <==> Evaluate(op, IsOn(imageA[x, y]), IsOn(imageB[x, y])))
    ensures forall x, y :: 0 <= x < out.Length0 && 0 <= y < out.Length1 ==>
              out[x, y] == LogicPixel(op, imageA[x, y], imageB[x, y])
  {
    var binaryA := Binarize(imageA, DEFAULT_THRESHOLD);
    var binaryB := Binarize(imageB, DEFAULT_THRESHOLD);
    var width := if binaryA.Length0 <= binaryB.Length0 then binaryA.Length0 else binaryB.Length0;
    var height := if binaryA.Length1 <= binaryB.Length1 then binaryA.Length1 else binaryB.Length1;
    out := new Color[width, height];
    for y := 0 to height
      modifies out
      invariant forall i, j :: 0 <= i < width && 0 <= j < y ==> out[i, j] == LogicPixel(op, imageA[i, j], imageB[i, j])
    {
      LogicRow(op, imageA, imageB, binaryA, binaryB, out, y);
    }
  }

  /** Row y of ApplyLogic; the other rows are left as they were. */
  method LogicRow(op: LogicalOp, imageA: array2<Color>, imageB: array2<Color>, binaryA: array2<Color>,
                  binaryB: array2<Color>, out: array2<Color>, y: int)
    requires SameSize(binaryA, imageA) && SameSize(binaryB, imageB)
    requires forall x, y :: 0 <= x < binaryA.Length0 && 0 <= y < binaryA.Length1 ==>
               binaryA[x, y] == BinarizePixel(imageA[x, y], DEFAULT_THRESHOLD)
    requires forall x, y :: 0 <= x < binaryB.Length0 && 0 <= y < binaryB.Length1 ==>
               binaryB[x, y] == BinarizePixel(imageB[x, y], DEFAULT_THRESHOLD)
    requires out.Length0 <= imageA.Length0 && out.Length0 <= imageB.Length0 && 0 <= y < out.Length1
    requires out.Length1 <= imageA.Length1 && out.Length1 <= imageB.Length1
    requires out !in {imageA, imageB, binaryA, binaryB}
    modifies out
    ensures forall i :: 0 <= i < out.Length0 ==> out[i, y] == LogicPixel(op, imageA[i, y], imageB[i, y])
    ensures forall i, j :: 0 <= i < out.Length0 && 0 <= j < out.Length1 && j != y ==> out[i, j] == old(out[i, j])
  {
    for x := 0 to out.Length0
      invariant forall i :: 0 <= i < x ==> out[i, y] == LogicPixel(op, imageA[i, y], imageB[i, y])
      invariant forall i, j :: 0 <= i < out.Length0 && 0 <= j < out.Length1 && j != y ==> out[i, j] == old(out[i, j])
    {
      var pixelA := binaryA[x, y] == WHITE;
      var pixelB := binaryB[x, y] == WHITE;
      var result := Evaluate(op, pixelA, pixelB);
      out[x, y] := if result then WHITE else BLACK;
    }
  }

  /** Binarizes the image and swaps white and black. */
  method Not(img: array2<Color>) returns (out: array2<Color>)
    requires ValidImage(img)
    ensures fresh(out) && SameSize(out, img) && ValidImage(out)
    ensures forall x, y :: 0 <= x < out.Length0 && 0 <= y < out.Length1 ==>
              (out[x, y] == WHITE <==> !IsOn(img[x, y])) && (out[x, y] == WHITE || out[x, y] == BLACK)
  {
    var binaryImage := Binarize(img, DEFAULT_THRESHOLD);
    var width, height := binaryImage.Length0, binaryImage.Length1;
    out := new Color[width, height];
    for y := 0 to height
      modifies out
      invariant forall i, j :: 0 <= i < width && 0 <= j < y ==> out[i, j] == NotPixel(img[i, j])
    {
      for x := 0 to width
        modifies out
        invariant forall i, j :: 0 <= i < width && 0 <= j < y ==> out[i, j] == NotPixel(img[i, j])
        invariant forall i :: 0 <= i < x ==> out[i, y] == NotPixel(img[i, y])
      {
        var pixel := binaryImage[x, y] == WHITE;
        out[x, y] := if !pixel then WHITE else BLACK;
      }
    }
  }
}
