/** The free functions of utility.cpp: sinc, the unit conversions, the unit
    phasor i_exp, the square root of a Field and the three pulse shapes. The
    <cmath> functions come in as a Libm record, and every law about them that
    a member relies on is one of its requires clauses. */
module Utility {
  import opened Complexes
  import opened MathLibrary
  import opened Samples
  import opened Fields

  /** The speed of light in vacuum, in metres per second (light_speed::mps). */
  const LightSpeed: real := 299792458.0

  // ---------------------------------------------------------------- scalars

  /** The normalised sinc, sin(pi x) / (pi x), with its removable singularity
      at 0 filled in by 1. */
  function Sinc(m: Libm, x: real): (r: real)
    ensures x == 0.0 ==> r == 1.0
    ensures x != 0.0 ==> r * Pi * x == m.sin(Pi * x)
  {
    if x == 0.0 then 1.0
    else
      DivideTwice(m.sin(Pi * x), Pi, x);
      m.sin(Pi * x) / Pi / x
  }

  // Small facts of real arithmetic that the solver does not find unaided.

  /** Dividing by a and then by b is undone by multiplying by a and then by b. */
  lemma DivideTwice(s: real, a: real, b: real)
    requires a != 0.0 && b != 0.0
    ensures s / a / b * a * b == s
  {
    var q := s / a;
    assert q * a == s;
    assert q / b * b == q;
    assert s / a / b * a * b == q / b * b * a;
  }

  /** The quotient x / d is the one y with y d == x. */
  lemma DivUnique(x: real, d: real, y: real)
    requires d != 0.0 && y * d == x
    ensures x / d == y
  {
    assert (x / d) * d == x;
    assert (x / d - y) * d == 0.0;
  }

  lemma PositiveProduct(a: real, b: real)
    requires a > 0.0 && b > 0.0
    ensures a * b > 0.0
  {
  }

  lemma SquarePositive(w: real)
    requires w != 0.0
    ensures w * w > 0.0
  {
    if w > 0.0 {
      PositiveProduct(w, w);
    } else {
      PositiveProduct(-w, -w);
      assert (-w) * (-w) == w * w;
    }
  }

  /** The sign of -a b d / (2 pi c) for positive a and b is opposite to that of d. */
  lemma Beta2SignFactors(a: real, b: real, d: real)
    requires a > 0.0 && b > 0.0
    ensures d > 0.0 ==> -a * b * d / (2.0 * Pi * LightSpeed) < 0.0
    ensures d < 0.0 ==> -a * b * d / (2.0 * Pi * LightSpeed) > 0.0
  {
    PositiveProduct(a, b);
    if d > 0.0 {
      PositiveProduct(a * b, d);
    } else if d < 0.0 {
      PositiveProduct(a * b, -d);
    }
  }

  /** For an odd sine, sinc is even. */
  lemma SincEven(m: Libm, x: real)
    requires forall y :: m.sin(-y) == -m.sin(y)
    ensures Sinc(m, -x) == Sinc(m, x)
  {
    if x != 0.0 {
      assert Pi * -x == -(Pi * x);
      var s := m.sin(Pi * x);
      assert m.sin(Pi * -x) == -s;
      assert -s / Pi / -x == s / Pi / x;
    }
  }

  /** A ratio in decibels as a linear factor, 10^(db/10): a positive factor
      which, read back in decibels as 10 log10 r (10 ln r = db ln 10), is db. */
  function DbToLinear(m: Libm, db: real): (r: real)
    ensures (forall y :: m.pow(10.0, y) > 0.0) ==> r > 0.0
    ensures (forall y :: m.log(m.pow(10.0, y)) == Nepers(m, y)) ==> 10.0 * m.log(r) == Nepers(m, db)
  {
    m.pow(10.0, db / 10.0)
  }

  /** A power in dBm as watts: the linear value in milliwatts over 1000. */
  function DbmToWatts(m: Libm, dbm: real): (r: real)
    ensures r * 1000.0 == DbToLinear(m, dbm)
  {
    0.001 * m.pow(10.0, dbm / 10.0)
  }

  /** An attenuation in decibels in natural units (nepers of power),
      db ln(10) / 10: the natural logarithm of the linear factor. */
  function DbToNatural(m: Libm, db: real): (r: real)
    ensures (forall y :: m.log(m.pow(10.0, y)) == Nepers(m, y)) ==> r == m.log(DbToLinear(m, db))
  {
    db * m.log(10.0) / 10.0
  }

  /** The exponent of e that equals 10^y. */
  function Nepers(m: Libm, y: real): real
  {
    y * m.log(10.0)
  }

  /** 0 dB is the factor 1 and 0 dBm is one milliwatt. */
  lemma ZeroDecibels(m: Libm)
    requires m.pow(10.0, 0.0) == 1.0
    ensures DbToLinear(m, 0.0) == 1.0
    ensures DbmToWatts(m, 0.0) == 0.001
    ensures DbToNatural(m, 0.0) == 0.0
  {
  }

  /** Decibels add where linear factors multiply. */
  lemma DecibelsAdd(m: Libm, a: real, b: real)
    requires forall x, y :: m.pow(10.0, x + y) == m.pow(10.0, x) * m.pow(10.0, y)
    ensures DbToLinear(m, a + b) == DbToLinear(m, a) * DbToLinear(m, b)
    ensures DbToNatural(m, a + b) == DbToNatural(m, a) + DbToNatural(m, b)
  {
    assert (a + b) / 10.0 == a / 10.0 + b / 10.0;
  }

  /** The natural-unit value is the exponent that yields the linear factor. */
  lemma NaturalMatchesLinear(m: Libm, db: real)
    requires forall y :: m.exp(Nepers(m, y)) == m.pow(10.0, y)
    ensures m.exp(DbToNatural(m, db)) == DbToLinear(m, db)
  {
    assert DbToNatural(m, db) == Nepers(m, db / 10.0);
  }

  /** The group-velocity dispersion beta2 of a dispersion parameter D at a
      wavelength, -lambda^2 D / (2 pi c); at a non-zero wavelength D is
      recovered from it as -2 pi c beta2 / lambda^2. */
  function DispToBeta2(dispersion: real, wavelength: real): (r: real)
    ensures wavelength != 0.0 ==> -r * (2.0 * Pi * LightSpeed) / wavelength / wavelength == dispersion
  {
    if wavelength != 0.0 then
      PositiveProduct(2.0 * Pi, LightSpeed);
      Beta2Inverts(wavelength, dispersion, 2.0 * Pi * LightSpeed);
      -wavelength * wavelength * dispersion / (2.0 * Pi * LightSpeed)
    else
      -wavelength * wavelength * dispersion / (2.0 * Pi * LightSpeed)
  }

  /** Undoing -w^2 d / k by -k / w / w gives back d. */
  lemma Beta2Inverts(w: real, d: real, k: real)
    requires w != 0.0 && k > 0.0
    ensures -(-w * w * d / k) * k / w / w == d
  {
    var x := -w * w * d;
    assert (x / k) * k == x;
    assert -(x / k) * k == w * (w * d);
    DivUnique(w * (w * d), w, w * d);
    DivUnique(w * d, w, d);
  }

  /** beta2 has the sign opposite to D: anomalous dispersion (D > 0) gives a
      negative beta2, and no dispersion gives none. */
  lemma DispersionSign(dispersion: real, wavelength: real)
    ensures wavelength != 0.0 && dispersion > 0.0 ==> DispToBeta2(dispersion, wavelength) < 0.0
    ensures wavelength != 0.0 && dispersion < 0.0 ==> DispToBeta2(dispersion, wavelength) > 0.0
    ensures dispersion == 0.0 ==> DispToBeta2(dispersion, wavelength) == 0.0
  {
    if wavelength > 0.0 {
      Beta2SignFactors(wavelength, wavelength, dispersion);
    } else if wavelength < 0.0 {
      Beta2SignFactors(-wavelength, -wavelength, dispersion);
      assert -(-wavelength) * -wavelength == -wavelength * wavelength;
    }
  }

  /** The unit phasor e^(ix) = cos x + i sin x: on the unit circle whenever
      cos^2 x + sin^2 x = 1, and 1 at x = 0. */
  function IExp(m: Libm, x: real): (r: Complex)
    ensures m.cos(x) * m.cos(x) + m.sin(x) * m.sin(x) == 1.0 ==> Norm(r) == 1.0
    ensures x == 0.0 && m.cos(0.0) == 1.0 && m.sin(0.0) == 0.0 ==> r == One
  {
    Complex(m.cos(x), m.sin(x))
  }

  /** Multiplying by a phasor keeps the power of a sample. */
  lemma PhasorKeepsPower(m: Libm, z: Complex, x: real)
    requires m.cos(x) * m.cos(x) + m.sin(x) * m.sin(x) == 1.0
    ensures Norm(Mul(z, IExp(m, x))) == Norm(z)
  {
    NormMul(z, IExp(m, x));
  }

  /** e^(ix) and e^(-ix) are conjugate for an even cosine and an odd sine. */
  lemma IExpConjugate(m: Libm, x: real)
    requires forall y :: m.cos(-y) == m.cos(y) && m.sin(-y) == -m.sin(y)
    ensures IExp(m, -x) == Conj(IExp(m, x))
  {
    assert m.cos(-x) == m.cos(x) && m.sin(-x) == -m.sin(x);
  }

  // ---------------------------------------------------------------- sqrt(Field)

  /** The field whose sample i is sqrt(Re field[i]) with no imaginary part;
      the sampling rate and grid are those of the argument, since the result
      starts as its copy. */
  method SqrtField(m: Libm, field: Field) returns (root: Field)
    ensures fresh(root) && fresh(root.data)
    ensures root.data.Length == field.data.Length
    ensures forall i :: 0 <= i < root.data.Length ==> root.data[i] == FromReal(m.sqrt(field.data[i].re))
    ensures root.samplingRate == field.samplingRate && root.omega == field.omega
  {
    root := new Field.Copy(field);
    var buffer := root.data;
    for i := 0 to field.data.Length
      modifies buffer
      invariant forall j :: 0 <= j < i ==> buffer[j] == FromReal(m.sqrt(field.data[j].re))
    {
      buffer[i] := FromReal(m.sqrt(field.data[i].re));
    }
  }

  /** Where the real parts are non-negative powers, the power of the root
      field is the real part it came from. */
  lemma SqrtGivesPower(m: Libm, s: seq<Complex>, root: seq<Complex>)
    requires |root| == |s|
    requires forall i :: 0 <= i < |s| ==> root[i] == FromReal(m.sqrt(s[i].re))
    requires forall x :: x >= 0.0 ==> m.sqrt(x) * m.sqrt(x) == x
    requires forall i :: 0 <= i < |s| ==> s[i].re >= 0.0
    ensures Norms(root) == seq(|s|, i requires 0 <= i < |s| => s[i].re)
  {
    forall i | 0 <= i < |s|
      ensures Norm(root[i]) == s[i].re
    {
      var x := s[i].re;
      assert m.sqrt(x) * m.sqrt(x) == x;
    }
  }

  // ---------------------------------------------------------------- sech_pulse

  /** The time coordinate of sample i: n samples spread evenly over [-10, 10]. */
  function SechArgument(n: int, i: int): real
    requires n >= 2
  {
    20.0 * ((i as real) / (n as real - 1.0)) - 20.0 / 2.0
  }

  /** The argument runs from -10 at the first sample to 10 at the last, and
      mirrors around the middle of the window. */
  lemma SechArgumentSpan(n: int, i: int)
    requires n >= 2
    ensures SechArgument(n, 0) == -10.0 && SechArgument(n, n - 1) == 10.0
    ensures SechArgument(n, n - 1 - i) == -SechArgument(n, i)
  {
    var d := n as real - 1.0;
    DivUnique((n - 1) as real, d, 1.0);
    var q := (i as real) / d;
    assert q * d == i as real;
    assert (1.0 - q) * d == (n - 1 - i) as real;
    DivUnique((n - 1 - i) as real, d, 1.0 - q);
  }

  /** Sample i of sech_pulse: sech(t / width) / width. */
  function SechSample(m: Libm, n: int, width: real, i: int): Complex
    requires n >= 2 && width != 0.0
    requires m.cosh(SechArgument(n, i) / width) != 0.0
  {
    DivReal(FromReal(1.0 / m.cosh(SechArgument(n, i) / width)), width)
  }

  /** A sech pulse of n samples over [-10, 10], with sampling rate n / 4 and
      the matching frequency grid. */
  method SechPulse(m: Libm, n: int, width: real) returns (pulse: Field)
    requires n >= 2 && width != 0.0
    requires forall y :: m.cosh(y) >= 1.0
    ensures fresh(pulse) && fresh(pulse.data)
    ensures pulse.data.Length == n
    ensures forall i :: 0 <= i < n ==> pulse.data[i] == SechSample(m, n, width, i)
    ensures pulse.samplingRate == n as real / 4.0
    ensures pulse.omega == Grid(n, n as real / 4.0)
  {
    pulse := new Field.Filled(n, Zero);
    var buffer := pulse.data;
    for i := 0 to n
      modifies buffer
      invariant forall j :: 0 <= j < i ==> buffer[j] == SechSample(m, n, width, j)
    {
      var argument := (i as real) / (n as real - 1.0);
      argument := 20.0 * argument - 20.0 / 2.0;
      buffer[i] := FromReal(1.0 / m.cosh(argument / width));
      buffer[i] := DivReal(buffer[i], width);
    }
    pulse.SetSamplingRate(n as real / 4.0);
  }

  /** For an even cosh the pulse is symmetric: sample i equals sample n-1-i. */
  lemma SechSymmetric(m: Libm, n: int, width: real, i: int)
    requires n >= 2 && width != 0.0
    requires forall y :: m.cosh(y) >= 1.0
    requires forall y :: m.cosh(-y) == m.cosh(y)
    ensures SechSample(m, n, width, n - 1 - i) == SechSample(m, n, width, i)
  {
    var t := SechArgument(n, i);
    SechArgumentSpan(n, i);
    assert -t / width == -(t / width);
    assert m.cosh(-(t / width)) == m.cosh(t / width);
  }

  /** For an odd number of samples the middle one sits at t = 0 and, with
      cosh 0 = 1, holds the peak amplitude 1 / width. */
  lemma SechPeak(m: Libm, n: int, width: real)
    requires n >= 2 && n % 2 == 1 && width != 0.0
    requires m.cosh(0.0) == 1.0
    ensures SechArgument(n, (n - 1) / 2) == 0.0
    ensures SechSample(m, n, width, (n - 1) / 2) == FromReal(1.0 / width)
  {
    var h := (n - 1) / 2;
    assert n as real - 1.0 == 2.0 * h as real;
    assert (h as real) / (2.0 * h as real) == 0.5;
  }

  // ---------------------------------------------------------------- gaussian, lorentzian

  /** The time coordinate of sample i: the grid step times the offset from
      the centre index n/2 (integer division, as in the source). */
  function PulseArgument(n: int, step: real, i: int): real
  {
    step * (i - n / 2) as real
  }

  /** The two samples k places either side of the centre sit at opposite
      time coordinates, and the centre itself at 0. */
  lemma PulseArgumentMirrors(n: int, step: real, k: int)
    ensures PulseArgument(n, step, n / 2 - k) == -PulseArgument(n, step, n / 2 + k)
    ensures PulseArgument(n, step, n / 2) == 0.0
  {
    assert (n / 2 - k - n / 2) as real == -((n / 2 + k - n / 2) as real);
  }

  /** The Gaussian envelope factor exp(-2 ln 2 t^2 / fwhm^2) in the order the
      source evaluates it. */
  function GaussianFactor(m: Libm, arg: real, fwhm: real): real
    requires fwhm != 0.0
  {
    m.exp(-arg * arg / fwhm / fwhm * 2.0 * m.log(2.0))
  }

  /** The envelope is even in t and is exp 0 at t = 0. */
  lemma GaussianFactorEven(m: Libm, t: real, fwhm: real)
    requires fwhm != 0.0
    ensures GaussianFactor(m, -t, fwhm) == GaussianFactor(m, t, fwhm)
    ensures GaussianFactor(m, 0.0, fwhm) == m.exp(0.0)
  {
    var a := -(-t) * -t;
    var b := -t * t;
    assert a == b;
    assert a / fwhm / fwhm == b / fwhm / fwhm;
    var z := -0.0 * 0.0;
    assert z == 0.0;
    assert z / fwhm / fwhm * 2.0 * m.log(2.0) == 0.0;
  }

  /** Sample i of gaussian: sqrt(peak power) scaled by the envelope. */
  function GaussianSample(m: Libm, n: int, peakPower: real, fwhm: real, step: real, i: int): Complex
    requires fwhm != 0.0
  {
    MulReal(FromReal(m.sqrt(peakPower)), GaussianFactor(m, PulseArgument(n, step, i), fwhm))
  }

  /** A Gaussian pulse of n samples centred on index n/2. */
  method Gaussian(m: Libm, n: int, peakPower: real, fwhm: real, step: real) returns (pulse: Field)
    requires n >= 0 && fwhm != 0.0
    ensures fresh(pulse) && fresh(pulse.data)
    ensures pulse.data.Length == n
    ensures forall i :: 0 <= i < n ==> pulse.data[i] == GaussianSample(m, n, peakPower, fwhm, step, i)
  {
    pulse := new Field.Filled(n, FromReal(m.sqrt(peakPower)));
    var buffer := pulse.data;
    for i := 0 to n
      modifies buffer
      invariant forall j :: 0 <= j < i ==> buffer[j] == GaussianSample(m, n, peakPower, fwhm, step, j)
      invariant forall j :: i <= j < n ==> buffer[j] == FromReal(m.sqrt(peakPower))
    {
      var arg := step * (i - n / 2) as real;
      assert arg == PulseArgument(n, step, i);
      buffer[i] := MulReal(buffer[i], GaussianFactor(m, arg, fwhm));
    }
  }

  /** The centre sample carries sqrt(peak power), given exp 0 = 1. */
  lemma GaussianPeak(m: Libm, n: int, peakPower: real, fwhm: real, step: real)
    requires fwhm != 0.0
    requires m.exp(0.0) == 1.0
    ensures GaussianSample(m, n, peakPower, fwhm, step, n / 2) == FromReal(m.sqrt(peakPower))
  {
    PulseArgumentMirrors(n, step, 0);
    GaussianFactorEven(m, 0.0, fwhm);
  }

  /** The argument enters only squared, so the pulse is symmetric about n/2. */
  lemma GaussianSymmetric(m: Libm, n: int, peakPower: real, fwhm: real, step: real, k: int)
    requires fwhm != 0.0
    ensures GaussianSample(m, n, peakPower, fwhm, step, n / 2 - k) ==
            GaussianSample(m, n, peakPower, fwhm, step, n / 2 + k)
  {
    PulseArgumentMirrors(n, step, k);
    GaussianFactorEven(m, PulseArgument(n, step, n / 2 + k), fwhm);
  }

  /** fwhm is the full width at half maximum of the power: half a width from
      the centre, the power |sqrt(P) e^(-2 ln 2 t^2/fwhm^2)|^2 is P / 2. */
  lemma GaussianHalfPower(m: Libm, peakPower: real, fwhm: real)
    requires fwhm != 0.0 && peakPower >= 0.0
    requires m.sqrt(peakPower) * m.sqrt(peakPower) == peakPower
    requires forall x :: m.exp(x) * m.exp(x) == m.exp(x + x)
    requires m.exp(-m.log(2.0)) == 0.5
    ensures Norm(MulReal(FromReal(m.sqrt(peakPower)), GaussianFactor(m, fwhm / 2.0, fwhm))) == peakPower / 2.0
  {
    var l := m.log(2.0);
    var h := fwhm / 2.0;
    assert -h * h / fwhm / fwhm == -0.25 by {
      assert (-fwhm / 4.0) * fwhm == -h * h;
      DivUnique(-h * h, fwhm, -fwhm / 4.0);
      DivUnique(-fwhm / 4.0, fwhm, -0.25);
    }
    var e := -h * h / fwhm / fwhm * 2.0 * l;
    assert e == -0.5 * l;
    assert e + e == -l;
    var g := m.exp(e);
    assert g * g == 0.5;
    var s := m.sqrt(peakPower);
    calc {
      Norm(MulReal(FromReal(s), g));
      s * g * (s * g) + 0.0 * g * (0.0 * g);
      s * s * (g * g);
      peakPower * 0.5;
    }
  }

  /** 1 + 4 t^2 / fwhm^2 is at least 1, so the Lorentzian factor is defined. */
  lemma LorentzianDenominator(arg: real, fwhm: real)
    requires fwhm != 0.0
    ensures 1.0 + 4.0 * arg * arg / fwhm / fwhm >= 1.0
  {
    var x := 4.0 * arg * arg;
    assert x >= 0.0;
    var q := x / fwhm / fwhm;
    DivideTwice(x, fwhm, fwhm);
    assert q * (fwhm * fwhm) == x;
    SquarePositive(fwhm);
  }

  /** The Lorentzian envelope factor 1 / (1 + 4 t^2 / fwhm^2), between 0 and 1. */
  function LorentzianFactor(arg: real, fwhm: real): (r: real)
    requires fwhm != 0.0
    ensures 0.0 < r <= 1.0
  {
    LorentzianDenominator(arg, fwhm);
    1.0 / (1.0 + 4.0 * arg * arg / fwhm / fwhm)
  }

  /** The envelope is even in t. */
  lemma LorentzianFactorEven(t: real, fwhm: real)
    requires fwhm != 0.0
    ensures LorentzianFactor(-t, fwhm) == LorentzianFactor(t, fwhm)
  {
    var a := 4.0 * -t * -t;
    var b := 4.0 * t * t;
    assert a == b;
    assert a / fwhm / fwhm == b / fwhm / fwhm;
  }

  /** Sample i of lorentzian: sqrt(peak power) scaled by the envelope. */
  function LorentzianSample(m: Libm, n: int, peakPower: real, fwhm: real, step: real, i: int): Complex
    requires fwhm != 0.0
  {
    MulReal(FromReal(m.sqrt(peakPower)), LorentzianFactor(PulseArgument(n, step, i), fwhm))
  }

  /** A Lorentzian pulse of n samples centred on index n/2. */
  method Lorentzian(m: Libm, n: int, peakPower: real, fwhm: real, step: real) returns (pulse: Field)
    requires n >= 0 && fwhm != 0.0
    ensures fresh(pulse) && fresh(pulse.data)
    ensures pulse.data.Length == n
    ensures forall i :: 0 <= i < n ==> pulse.data[i] == LorentzianSample(m, n, peakPower, fwhm, step, i)
  {
    pulse := new Field.Filled(n, FromReal(m.sqrt(peakPower)));
    var buffer := pulse.data;
    for i := 0 to n
      modifies buffer
      invariant forall j :: 0 <= j < i ==> buffer[j] == LorentzianSample(m, n, peakPower, fwhm, step, j)
      invariant forall j :: i <= j < n ==> buffer[j] == FromReal(m.sqrt(peakPower))
    {
      var arg := step * (i - n / 2) as real;
      assert arg == PulseArgument(n, step, i);
      buffer[i] := MulReal(buffer[i], LorentzianFactor(arg, fwhm));
    }
  }

  /** The centre sample carries sqrt(peak power), and no sample exceeds it. */
  lemma LorentzianPeak(m: Libm, n: int, peakPower: real, fwhm: real, step: real, i: int)
    requires fwhm != 0.0
    ensures LorentzianSample(m, n, peakPower, fwhm, step, n / 2) == FromReal(m.sqrt(peakPower))
    ensures Norm(LorentzianSample(m, n, peakPower, fwhm, step, i)) <= Norm(FromReal(m.sqrt(peakPower)))
  {
    PulseArgumentMirrors(n, step, 0);
    assert 4.0 * 0.0 * 0.0 / fwhm / fwhm == 0.0;
    var s := m.sqrt(peakPower);
    var f := LorentzianFactor(PulseArgument(n, step, i), fwhm);
    assert f * f <= 1.0;
    assert s * f * (s * f) == s * s * (f * f);
    assert s * s * (f * f) <= s * s;
  }

  /** The argument enters only squared, so the pulse is symmetric about n/2. */
  lemma LorentzianSymmetric(m: Libm, n: int, peakPower: real, fwhm: real, step: real, k: int)
    requires fwhm != 0.0
    ensures LorentzianSample(m, n, peakPower, fwhm, step, n / 2 - k) ==
            LorentzianSample(m, n, peakPower, fwhm, step, n / 2 + k)
  {
    PulseArgumentMirrors(n, step, k);
    LorentzianFactorEven(PulseArgument(n, step, n / 2 + k), fwhm);
  }

  /** Unlike the Gaussian's, the Lorentzian's fwhm is the full width at half
      maximum of the amplitude: half a width from the centre the amplitude
      factor is 1/2, so the power is a quarter of the peak. */
  lemma LorentzianHalfAmplitude(fwhm: real)
    requires fwhm != 0.0
    ensures LorentzianFactor(fwhm / 2.0, fwhm) == 0.5
  {
    var h := fwhm / 2.0;
    assert 4.0 * h * h == fwhm * fwhm;
    DivUnique(fwhm * fwhm, fwhm, fwhm);
    DivUnique(fwhm, fwhm, 1.0);
  }
}
