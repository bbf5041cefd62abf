/** Complex samples (std::complex<double>) as pairs of exact reals, and the
    pieces of <cmath> the simulator calls, which are left uninterpreted. */
module Complexes {

  datatype Complex = Complex(re: real, im: real)

  const Zero: Complex := Complex(0.0, 0.0)
  const One: Complex := Complex(1.0, 0.0)

  /** The implicit conversion double -> std::complex<double>. */
  function FromReal(x: real): Complex { Complex(x, 0.0) }

  function Add(a: Complex, b: Complex): Complex { Complex(a.re + b.re, a.im + b.im) }

  function Sub(a: Complex, b: Complex): Complex { Complex(a.re - b.re, a.im - b.im) }

  function Mul(a: Complex, b: Complex): Complex
  {
    Complex(a.re * b.re - a.im * b.im, a.re * b.im + a.im * b.re)
  }

  /** Squared magnitude, std::norm. */
  function Norm(a: Complex): (r: real)
    ensures r >= 0.0
  {
    a.re * a.re + a.im * a.im
  }

  function Conj(a: Complex): Complex { Complex(a.re, -a.im) }

  /** std::complex<double>::operator*=(double): both parts are scaled. */
  function MulReal(a: Complex, x: real): Complex { Complex(a.re * x, a.im * x) }

  /** std::complex<double>::operator/=(double): both parts are divided. */
  function DivReal(a: Complex, x: real): Complex
    requires x != 0.0
  {
    Complex(a.re / x, a.im / x)
  }

  /** Complex division, a * conj(b) / |b|^2, defined only for a divisor of
      non-zero magnitude (IEEE infinities and NaN are not modelled). */
  function Div(a: Complex, b: Complex): Complex
    requires Norm(b) != 0.0
  {
    MulReal(Mul(a, Conj(b)), 1.0 / Norm(b))
  }

  lemma MulAssoc(a: Complex, b: Complex, c: Complex)
    ensures Mul(Mul(a, b), c) == Mul(a, Mul(b, c))
  {
  }

  /** Division undoes multiplication. */
  lemma MulDivCancel(a: Complex, b: Complex)
    requires Norm(b) != 0.0
    ensures Div(Mul(a, b), b) == a
  {
    var d := Norm(b);
    MulAssoc(a, b, Conj(b));
    assert Mul(b, Conj(b)) == FromReal(d);
    assert Mul(Mul(a, b), Conj(b)) == MulReal(a, d);
    assert a.re * d * (1.0 / d) == a.re;
    assert a.im * d * (1.0 / d) == a.im;
  }

  /** The squared magnitude is multiplicative. */
  lemma NormMul(a: Complex, b: Complex)
    ensures Norm(Mul(a, b)) == Norm(a) * Norm(b)
  {
    var x := a.re * b.re - a.im * b.im;
    var y := a.re * b.im + a.im * b.re;
    calc {
      x * x + y * y;
      a.re * a.re * b.re * b.re + a.im * a.im * b.im * b.im
        + a.re * a.re * b.im * b.im + a.im * a.im * b.re * b.re;
      (a.re * a.re + a.im * a.im) * (b.re * b.re + b.im * b.im);
    }
  }

  /** Dividing by b divides the squared magnitude by that of b. */
  lemma NormDiv(a: Complex, b: Complex)
    requires Norm(b) != 0.0
    ensures Norm(Div(a, b)) == Norm(a) / Norm(b)
  {
    var d := Norm(b);
    var p := Mul(a, Conj(b));
    NormMul(a, Conj(b));
    assert Norm(p) == Norm(a) * d;
    var k := 1.0 / d;
    assert Norm(MulReal(p, k)) == Norm(p) * (k * k);
    assert Norm(a) * d * (k * k) == Norm(a) / d;
  }

  /** Parallelogram law: |a + b|^2 + |a - b|^2 == 2 (|a|^2 + |b|^2). */
  lemma Parallelogram(a: Complex, b: Complex)
    ensures Norm(Add(a, b)) + Norm(Sub(a, b)) == 2.0 * (Norm(a) + Norm(b))
  {
  }
}

/** The functions of the C math library the simulator calls. They are passed
    around as a record of function values, so that nothing about them is
    assumed beyond what a member states in its own requires clause. */
module MathLibrary {

  datatype Libm = Libm(
    sin: real -> real,
    cos: real -> real,
    cosh: real -> real,
    exp: real -> real,
    log: real -> real,
    sqrt: real -> real,
    pow: (real, real) -> real)

  /** The double value of M_PI (and of the project's math_pi). */
  const Pi: real := 3.141592653589793
}
