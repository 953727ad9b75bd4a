/** The immutable complex scalar used by the Fourier engine. Every operation
    returns a new value; nothing is updated in place. */
module ComplexNumbers {

  datatype Complex = Complex(re: real, im: real)

  /** The real part: together with the imaginary part it rebuilds z. */
  function GetReal(z: Complex): (r: real)
    ensures Complex(r, z.im) == z
  {
    z.re
  }

  /** The imaginary part: together with the real part it rebuilds z. */
  function GetImag(z: Complex): (i: real)
    ensures Complex(z.re, i) == z
  {
    z.im
  }

  /** Componentwise addition: taking away either addend leaves the other. */
  function Plus(a: Complex, b: Complex): (s: Complex)
    ensures Minus(s, b) == a && Minus(s, a) == b
  {
    Complex(a.re + b.re, a.im + b.im)
  }

  /** Componentwise subtraction: the difference is zero exactly for equal
      numbers. */
  function Minus(a: Complex, b: Complex): (d: Complex)
    ensures d == ZERO <==> a == b
  {
    Complex(a.re - b.re, a.im - b.im)
  }

  /** The complex product: zero annihilates and one is neutral, on either
      side. */
  function Times(a: Complex, b: Complex): (p: Complex)
    ensures a == ZERO || b == ZERO ==> p == ZERO
    ensures b == ONE ==> p == a
    ensures a == ONE ==> p == b
  {
    Complex(a.re * b.re - a.im * b.im, a.re * b.im + a.im * b.re)
  }

  /** The complex conjugate, as the inverse transform builds it: it keeps the
      modulus, and z plus its conjugate is the real number 2 re(z). */
  function Conjugate(z: Complex): (c: Complex)
    ensures Norm(c) == Norm(z) && Plus(z, c) == Complex(2.0 * z.re, 0.0)
  {
    assert (-z.im) * (-z.im) == z.im * z.im;
    Complex(z.re, -z.im)
  }

  /** Square roots supplied from outside are only assumed not to be negative. */
  ghost predicate NonNegativeRoot(sqrt: real -> real) {
    forall t :: sqrt(t) >= 0.0
  }

  /** The modulus, with the square root supplied from outside. */
  function Magnitude(z: Complex, sqrt: real -> real): (m: real)
    ensures NonNegativeRoot(sqrt) ==> m >= 0.0
  {
    sqrt(Norm(z))
  }

  const ONE: Complex := Complex(1.0, 0.0)
  const ZERO: Complex := Complex(0.0, 0.0)

  /** The getters return exactly what the constructor was given. */
  lemma GettersReturnArguments(re: real, im: real)
    ensures GetReal(Complex(re, im)) == re && GetImag(Complex(re, im)) == im
  {
  }

  lemma PlusCommutative(a: Complex, b: Complex)
    ensures Plus(a, b) == Plus(b, a)
  {
  }

  lemma PlusAssociative(a: Complex, b: Complex, c: Complex)
    ensures Plus(Plus(a, b), c) == Plus(a, Plus(b, c))
  {
  }

  lemma ZeroIsPlusIdentity(a: Complex)
    ensures Plus(a, ZERO) == a
  {
  }

  /** Subtracting what was added gives the original value back. */
  lemma MinusUndoesPlus(a: Complex, b: Complex)
    ensures Minus(Plus(a, b), b) == a
  {
  }

  lemma TimesCommutative(a: Complex, b: Complex)
    ensures Times(a, b) == Times(b, a)
  {
  }

  lemma TimesDistributesOverPlus(a: Complex, b: Complex, c: Complex)
    ensures Times(a, Plus(b, c)) == Plus(Times(a, b), Times(a, c))
  {
  }

  lemma ConjugateInvolutive(z: Complex)
    ensures Conjugate(Conjugate(z)) == z
  {
  }

  /** The point at distance `magnitude` from the origin in direction `phase`,
      with cosine and sine supplied from outside. */
  function FromPolar(magnitude: real, phase: real, cos: real -> real, sin: real -> real): (z: Complex)
    ensures cos(phase) * cos(phase) + sin(phase) * sin(phase) == 1.0 ==>
              z.re * z.re + z.im * z.im == magnitude * magnitude
  {
    var c, s := cos(phase), sin(phase);
    assert (magnitude * c) * (magnitude * c) + (magnitude * s) * (magnitude * s) == magnitude * magnitude * (c * c + s * s);
    Complex(magnitude * c, magnitude * s)
  }

  /** The squared modulus, the quantity under the square root of Magnitude. */
  function Norm(z: Complex): (n: real)
    ensures n >= 0.0
    ensures z == ZERO ==> n == 0.0
  {
    SquareNonNegative(z.re);
    SquareNonNegative(z.im);
    z.re * z.re + z.im * z.im
  }

  lemma SquareNonNegative(t: real)
    ensures t * t >= 0.0
  {
    if t < 0.0 {
      assert t * t == (-t) * (-t);
    }
  }

  /** The squared modulus of a product is the product of the squared moduli,
      so Magnitude is multiplicative for a multiplicative square root. */
  lemma NormMultiplicative(a: Complex, b: Complex)
    ensures Norm(Times(a, b)) == Norm(a) * Norm(b)
  {
    var p, q, r, s := a.re, a.im, b.re, b.im;
    calc {
      Norm(Times(a, b));
      (p * r - q * s) * (p * r - q * s) + (p * s + q * r) * (p * s + q * r);
      p * p * r * r + q * q * s * s + p * p * s * s + q * q * r * r;
      (p * p + q * q) * (r * r + s * s);
    }
  }

  /** Conjugation commutes with multiplication: what the inverse transform
      relies on when it conjugates, transforms forward and conjugates back. */
  lemma ConjugateOfProduct(a: Complex, b: Complex)
    ensures Conjugate(Times(a, b)) == Times(Conjugate(a), Conjugate(b))
    ensures Conjugate(Plus(a, b)) == Plus(Conjugate(a), Conjugate(b))
    ensures Conjugate(Minus(a, b)) == Minus(Conjugate(a), Conjugate(b))
  {
    var p, q := Times(a, b), Times(Conjugate(a), Conjugate(b));
    assert p.re == q.re && -p.im == q.im by {
      assert a.re * -b.im + -a.im * b.re == -(a.re * b.im + a.im * b.re);
      assert (-a.im) * (-b.im) == a.im * b.im;
    }
  }

  /** z times its conjugate is the real number |z|^2. */
  lemma TimesConjugateIsNorm(z: Complex)
    ensures Times(z, Conjugate(z)) == Complex(Norm(z), 0.0)
  {
    assert z.re * -z.im + z.im * z.re == 0.0;
  }

  /** A product with a unit-modulus factor (a twiddle) keeps the modulus. */
  lemma UnitFactorKeepsNorm(w: Complex, z: Complex)
    requires Norm(w) == 1.0
    ensures Norm(Times(w, z)) == Norm(z)
  {
    NormMultiplicative(w, z);
  }
}
