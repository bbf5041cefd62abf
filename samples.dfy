/** Specification functions over sequences of samples: what the operations of
    a Field compute, stated independently of the buffer that holds them, and
    the properties of those functions. */
module Samples {
  import opened Complexes
  import opened MathLibrary

  /** The three field-wise operators a Field offers (operator+, operator-, operator*). */
  datatype BinOp = Plus | Minus | Times

  function Apply(op: BinOp, a: Complex, b: Complex): Complex
  {
    match op
    case Plus => Add(a, b)
    case Minus => Sub(a, b)
    case Times => Mul(a, b)
  }

  /** Sample i of the result combines sample i of each operand. */
  function Pointwise(op: BinOp, a: seq<Complex>, b: seq<Complex>): (r: seq<Complex>)
    requires |a| == |b|
    ensures |r| == |a|
    ensures forall i :: 0 <= i < |r| ==> r[i] == Apply(op, a[i], b[i])
  {
    seq(|a|, i requires 0 <= i < |a| => Apply(op, a[i], b[i]))
  }

  /** Every sample multiplied by the same constant. */
  function Scaled(s: seq<Complex>, c: Complex): (r: seq<Complex>)
    ensures |r| == |s|
    ensures forall i :: 0 <= i < |r| ==> r[i] == Mul(s[i], c)
  {
    seq(|s|, i requires 0 <= i < |s| => Mul(s[i], c))
  }

  /** Every sample divided by the same constant. */
  function Divided(s: seq<Complex>, c: Complex): (r: seq<Complex>)
    requires Norm(c) != 0.0
    ensures |r| == |s|
    ensures forall i :: 0 <= i < |r| ==> r[i] == Div(s[i], c)
  {
    seq(|s|, i requires 0 <= i < |s| => Div(s[i], c))
  }

  /** Adding b and then subtracting it again gives back a. */
  lemma AddThenSubtract(a: seq<Complex>, b: seq<Complex>)
    requires |a| == |b|
    ensures Pointwise(Minus, Pointwise(Plus, a, b), b) == a
  {
  }

  /** Field-wise multiplication does not depend on the order of the operands. */
  lemma TimesCommutes(a: seq<Complex>, b: seq<Complex>)
    requires |a| == |b|
    ensures Pointwise(Times, a, b) == Pointwise(Times, b, a)
  {
  }

  /** Scaling by c and then dividing by c gives back the samples. */
  lemma ScaleThenDivide(s: seq<Complex>, c: Complex)
    requires Norm(c) != 0.0
    ensures Divided(Scaled(s, c), c) == s
  {
    forall i | 0 <= i < |s|
      ensures Divided(Scaled(s, c), c)[i] == s[i]
    {
      MulDivCancel(s[i], c);
    }
  }

  // ---------------------------------------------------------------- power

  /** The per-sample power |s[i]|^2. */
  function Norms(s: seq<Complex>): (r: seq<real>)
    ensures |r| == |s|
    ensures forall i :: 0 <= i < |r| ==> r[i] == Norm(s[i]) && r[i] >= 0.0
  {
    seq(|s|, i requires 0 <= i < |s| => Norm(s[i]))
  }

  /** The sum of the per-sample powers, accumulated from the first sample on. */
  function SumNorms(s: seq<Complex>): real
  {
    if s == [] then 0.0 else SumNorms(s[..|s| - 1]) + Norm(s[|s| - 1])
  }

  /** The total power lies between 0 and |s| times any bound on the sample powers. */
  lemma {:induction false} SumNormsBounds(s: seq<Complex>, peak: real)
    requires forall i :: 0 <= i < |s| ==> Norm(s[i]) <= peak
    ensures 0.0 <= SumNorms(s) <= |s| as real * peak
  {
    if s != [] {
      var init := s[..|s| - 1];
      assert forall i :: 0 <= i < |init| ==> init[i] == s[i];
      SumNormsBounds(init, peak);
    }
  }

  /** The mean power is non-negative and never exceeds a bound on every
      sample's power, in particular the peak power. */
  lemma AverageAtMostPeak(s: seq<Complex>, peak: real)
    requires |s| > 0
    requires forall i :: 0 <= i < |s| ==> Norm(s[i]) <= peak
    ensures 0.0 <= SumNorms(s) / |s| as real <= peak
  {
    SumNormsBounds(s, peak);
    var n := |s| as real;
    assert SumNorms(s) / n * n == SumNorms(s);
  }

  // ---------------------------------------------------------------- fft_shift

  /** Sample i and sample i + n/2 trade places for every i < n/2; for odd n
      the last sample stays where it is. */
  function Shifted<T>(s: seq<T>): (r: seq<T>)
    ensures |r| == |s|
  {
    var h := |s| / 2;
    seq(|s|, i requires 0 <= i < |s| =>
      if i < h then s[i + h] else if i < 2 * h then s[i - h] else s[i])
  }

  /** The shift exchanges the two halves and keeps an odd trailing sample. */
  lemma ShiftedSwapsHalves<T>(s: seq<T>)
    ensures Shifted(s) == s[|s| / 2 .. 2 * (|s| / 2)] + s[.. |s| / 2] + s[2 * (|s| / 2) ..]
  {
  }

  /** The shift is a permutation of the samples. */
  lemma ShiftedPermutes<T>(s: seq<T>)
    ensures multiset(Shifted(s)) == multiset(s)
  {
    var h := |s| / 2;
    ShiftedSwapsHalves(s);
    assert s == s[..h] + s[h .. 2 * h] + s[2 * h ..];
  }

  /** Shifting twice restores the samples, for every length. */
  lemma ShiftedTwice<T>(s: seq<T>)
    ensures Shifted(Shifted(s)) == s
  {
  }

  /** The DC sample moves to the centre index n/2. */
  lemma ShiftedCentresDc<T>(s: seq<T>)
    requires |s| > 0
    ensures Shifted(s)[|s| / 2] == s[0]
  {
  }

  // ---------------------------------------------------------------- frequency grid

  /** The signed DFT bin of index i: 0..n/2 are DC and the positive bins,
      n/2+1..n-1 are the negative bins. */
  function BinIndex(n: nat, i: nat): int
  {
    if i <= n / 2 then i else i - n
  }

  /** The angular-frequency spacing 2 pi rate / n. */
  function GridStep(n: nat, rate: real): real
    requires n > 0
  {
    2.0 * Pi * rate / n as real
  }

  /** The step is 2 pi times the frequency resolution rate / n. */
  lemma GridStepInHertz(n: nat, rate: real)
    requires n > 0
    ensures GridStep(n, rate) == 2.0 * Pi * (rate / n as real)
  {
    var nr := n as real;
    var p := 2.0 * Pi;
    var g := GridStep(n, rate);
    var q := rate / nr;
    assert g * nr == p * rate;
    assert q * nr == rate;
    assert (p * q) * nr == p * (q * nr);
    ZeroFactor(g - p * q, nr);
  }

  /** A product with a positive factor vanishes only with the other factor. */
  lemma ZeroFactor(x: real, y: real)
    requires y > 0.0
    ensures x * y == 0.0 ==> x == 0.0
  {
    if x > 0.0 {
      assert x * y > 0.0;
    } else if x < 0.0 {
      assert (-x) * y > 0.0;
    }
  }

  /** The angular-frequency grid in DFT bin order. */
  function Grid(n: nat, rate: real): (g: seq<real>)
    requires n > 0
    ensures |g| == n
  {
    seq(n, i requires 0 <= i < n => GridStep(n, rate) * BinIndex(n, i) as real)
  }

  /** Bin 0 is DC. */
  lemma GridDc(n: nat, rate: real)
    requires n > 0
    ensures Grid(n, rate)[0] == 0.0
  {
  }

  /** Neighbouring bins are one step apart, except across the jump from the
      highest positive bin n/2 to the most negative bin. */
  lemma GridUniform(n: nat, rate: real, i: nat)
    requires i + 1 < n && i != n / 2
    ensures Grid(n, rate)[i + 1] - Grid(n, rate)[i] == GridStep(n, rate)
  {
    var g := Grid(n, rate);
    var d := GridStep(n, rate);
    if i < n / 2 {
      assert g[i + 1] == d * (i + 1) as real;
    } else {
      assert g[i + 1] == d * (i + 1 - n) as real;
      assert g[i] == d * (i - n) as real;
    }
  }

  /** In hertz, bin i sits at its signed bin index times rate / n. */
  lemma GridInHertz(n: nat, rate: real, i: nat)
    requires i < n
    ensures Grid(n, rate)[i] / (2.0 * Pi) == rate / n as real * BinIndex(n, i) as real
  {
    var nr := n as real;
    var q := rate / nr;
    var b := BinIndex(n, i) as real;
    assert rate == q * nr;
    assert 2.0 * Pi * rate / nr == 2.0 * Pi * q;
    assert Grid(n, rate)[i] == 2.0 * Pi * (q * b);
  }

  /** Bin n - i is the mirror image of bin i below the Nyquist bin. */
  lemma GridMirror(n: nat, rate: real, i: nat)
    requires 0 < i && 2 * i < n
    ensures Grid(n, rate)[n - i] == -Grid(n, rate)[i]
  {
    var d := GridStep(n, rate);
    assert Grid(n, rate)[n - i] == d * (-(i as real));
  }

  /** For an even length the Nyquist bin n/2 holds pi * rate, half the angular
      sampling frequency, with a positive sign. */
  lemma GridNyquist(n: nat, rate: real)
    requires n > 0 && n % 2 == 0
    ensures Grid(n, rate)[n / 2] == Pi * rate
  {
    var h := (n / 2) as real;
    assert n as real == 2.0 * h;
    assert Grid(n, rate)[n / 2] == 2.0 * Pi * rate / (2.0 * h) * h;
  }

  /** After fft_shift, an even-length grid reads from the most negative bin
      upwards in equal steps from index 1 on, with DC at the centre; index 0
      holds the positive Nyquist bin. */
  lemma ShiftedGridAscends(n: nat, rate: real, i: nat)
    requires n > 0 && n % 2 == 0 && i < n
    ensures var g := Grid(n, rate); var r := Shifted(g);
      r[i] == GridStep(n, rate) * (if i == 0 then n / 2 else i - n / 2) as real
  {
  }

  // ---------------------------------------------------------------- convolution

  /** The sum over i' < i of x[i'] * y[k - i'], the terms whose index into y
      is in range, accumulated in the order the source's loops add them. */
  function PartialConv(x: seq<Complex>, y: seq<Complex>, k: int, i: nat): Complex
    requires i <= |x|
  {
    if i == 0 then Zero
    else
      var p := PartialConv(x, y, k, i - 1);
      if 0 <= k - (i - 1) < |y| then Add(p, Mul(x[i - 1], y[k - (i - 1)])) else p
  }

  /** The full linear convolution: z[k] is the sum of x[i] * y[j] over i + j == k. */
  function Convolved(x: seq<Complex>, y: seq<Complex>): (z: seq<Complex>)
    requires |x| + |y| >= 1
    ensures |z| == |x| + |y| - 1
  {
    seq(|x| + |y| - 1, k requires 0 <= k < |x| + |y| - 1 => PartialConv(x, y, k, |x|))
  }

  lemma {:induction false} PartialConvUnit(x: seq<Complex>, k: nat, i: nat)
    requires i <= |x|
    ensures PartialConv(x, [One], k, i) == if k < i then x[k] else Zero
  {
    if i > 0 {
      PartialConvUnit(x, k, i - 1);
    }
  }

  /** Convolving with the unit impulse [1] returns the signal unchanged. */
  lemma ConvolvedWithUnit(x: seq<Complex>)
    requires |x| >= 1
    ensures Convolved(x, [One]) == x
  {
    forall k | 0 <= k < |x|
      ensures Convolved(x, [One])[k] == x[k]
    {
      PartialConvUnit(x, k, |x|);
    }
  }

  /** The unit impulse on the left is neutral as well. */
  lemma UnitConvolvedWith(y: seq<Complex>)
    requires |y| >= 1
    ensures Convolved([One], y) == y
  {
    forall k | 0 <= k < |y|
      ensures Convolved([One], y)[k] == y[k]
    {
      assert PartialConv([One], y, k, 1) == Add(Zero, Mul(One, y[k]));
      assert Add(Zero, Mul(One, y[k])) == Complex(y[k].re, y[k].im);
    }
  }
}
