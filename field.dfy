/** The signal container of the simulator: a Field is a fixed-length buffer of
    complex samples with a sampling rate and a cached angular-frequency grid;
    Polarizations holds the right- and left-circular components of the light
    as two Fields. Copying operators return a new Field and leave the receiver
    untouched; compound operators update the receiver's samples in place. */
module Fields {
  import opened Complexes
  import opened MathLibrary
  import opened Samples

  /** The std::logic_error the field-wise operators throw. */
  datatype Error = LogicError(message: string)

  const SizeMismatch: Error := LogicError("fields size mismatch")

  /** A value, or the error an operator threw instead of producing it. */
  datatype Result<T> = Success(value: T) | Failure(error: Error)

  /** Whether a compound operator completed or threw. */
  datatype Outcome = Pass | Fail(error: Error)

  class Field {
    var data: array<Complex>
    var samplingRate: real
    /** The angular-frequency grid, valid once a sampling rate has been set. */
    var omega: seq<real>

    /** Field(n): n zero samples, no grid yet. */
    constructor Zeros(n: nat)
      ensures fresh(data) && data.Length == n
      ensures forall i :: 0 <= i < n ==> data[i] == Zero
      ensures samplingRate == 0.0 && omega == []
    {
      data := new Complex[n](_ => Zero);
      samplingRate := 0.0;
      omega := [];
    }

    /** Field(n, v): n copies of v, no grid yet. */
    constructor Filled(n: nat, v: Complex)
      ensures fresh(data) && data.Length == n
      ensures forall i :: 0 <= i < n ==> data[i] == v
      ensures samplingRate == 0.0 && omega == []
    {
      data := new Complex[n](_ => v);
      samplingRate := 0.0;
      omega := [];
    }

    /** The copy constructor: samples, sampling rate and grid are copied. */
    constructor Copy(that: Field)
      ensures fresh(data) && data[..] == that.data[..]
      ensures samplingRate == that.samplingRate && omega == that.omega
    {
      var n := that.data.Length;
      var buffer := new Complex[n];
      for i := 0 to n
        invariant forall k :: 0 <= k < i ==> buffer[k] == that.data[k]
      {
        buffer[i] := that.data[i];
      }
      data := buffer;
      samplingRate := that.samplingRate;
      omega := that.omega;
    }

    // ------------------------------------------------------------ reductions

    /** The largest |sample|^2, or 0 for an empty field. */
    method PeakPower() returns (power: real)
      ensures 0.0 <= power
      ensures forall i :: 0 <= i < data.Length ==> Norm(data[i]) <= power
      ensures data.Length > 0 ==> exists i :: 0 <= i < data.Length && power == Norm(data[i])
      ensures data.Length == 0 ==> power == 0.0
    {
      power := 0.0;
      ghost var arg: nat := 0;
      for i := 0 to data.Length
        invariant 0.0 <= power
        invariant i == 0 ==> power == 0.0
        invariant forall k :: 0 <= k < i ==> Norm(data[k]) <= power
        invariant i > 0 ==> arg < i && power == Norm(data[arg])
      {
        if power < Norm(data[i]) {
          power := Norm(data[i]);
          arg := i;
        } else if i == 0 {
          assert 0.0 <= Norm(data[0]) <= power;
          arg := 0;
        }
      }
      assert data.Length > 0 ==> power == Norm(data[arg]);
    }

    /** The mean of |sample|^2; an empty field would divide by zero. */
    method AveragePower() returns (power: real)
      requires data.Length > 0
      ensures power == SumNorms(data[..]) / data.Length as real
    {
      var sum := 0.0;
      for i := 0 to data.Length
        invariant sum == SumNorms(data[..i])
      {
        assert data[..i + 1][..i] == data[..i];
        sum := sum + Norm(data[i]);
      }
      assert data[..data.Length] == data[..];
      power := sum / data.Length as real;
    }

    /** The per-sample power |sample|^2. */
    method TemporalPower() returns (power: seq<real>)
      ensures |power| == data.Length
      ensures forall i :: 0 <= i < data.Length ==> power[i] == Norm(data[i])
    {
      var buffer := new real[data.Length](_ => 0.0);
      for i := 0 to data.Length
        invariant forall k :: 0 <= k < i ==> buffer[k] == Norm(data[k])
      {
        buffer[i] := Norm(data[i]);
      }
      power := buffer[..];
    }

    // ------------------------------------------------------------ cropping

    /** A new field without the first atBegin and the last atEnd samples. */
    method Chomp(atBegin: nat, atEnd: nat) returns (chomped: Field)
      requires atBegin + atEnd <= data.Length
      ensures fresh(chomped) && fresh(chomped.data)
      ensures chomped.data.Length == data.Length - atBegin - atEnd
      ensures forall i :: 0 <= i < chomped.data.Length ==> chomped.data[i] == data[i + atBegin]
      ensures chomped.data[..] == data[atBegin .. data.Length - atEnd]
    {
      chomped := new Field.Zeros(data.Length - atBegin - atEnd);
      var buffer := chomped.data;
      for i := 0 to buffer.Length
        modifies buffer
        invariant forall k :: 0 <= k < i ==> buffer[k] == data[k + atBegin]
      {
        buffer[i] := data[i + atBegin];
      }
    }

    // ------------------------------------------------------------ field-wise operators

    /** The shared body of operator+, operator- and operator*: copy the
        receiver, then combine it sample by sample with the other field. */
    method CombinedWith(op: BinOp, other: Field) returns (r: Result<Field>)
      ensures r.Failure? <==> data.Length != other.data.Length
      ensures r.Failure? ==> r.error == SizeMismatch
      ensures r.Success? ==> fresh(r.value) && fresh(r.value.data)
      ensures r.Success? ==> r.value.data[..] == Pointwise(op, data[..], other.data[..])
      ensures r.Success? ==> r.value.samplingRate == samplingRate && r.value.omega == omega
    {
      var copy := new Field.Copy(this);
      if data.Length == other.data.Length {
        var buffer := copy.data;
        for i := 0 to buffer.Length
          modifies buffer
          invariant forall k :: 0 <= k < i ==> buffer[k] == Apply(op, data[k], other.data[k])
          invariant forall k :: i <= k < buffer.Length ==> buffer[k] == data[k]
        {
          buffer[i] := Apply(op, buffer[i], other.data[i]);
        }
        r := Success(copy);
      } else {
        r := Failure(SizeMismatch);
      }
    }

    /** The shared body of operator+=, operator-= and operator*=: combine the
        receiver's samples with the other field's in place. The other field may
        be the receiver itself. */
    method CombineInPlace(op: BinOp, other: Field) returns (outcome: Outcome)
      modifies data
      ensures outcome.Fail? <==> data.Length != other.data.Length
      ensures outcome.Fail? ==> outcome.error == SizeMismatch && data[..] == old(data[..])
      ensures outcome.Pass? ==> data[..] == Pointwise(op, old(data[..]), old(other.data[..]))
    {
      if data.Length == other.data.Length {
        for i := 0 to data.Length
          invariant forall k :: 0 <= k < i ==> data[k] == Apply(op, old(data[k]), old(other.data[k]))
          invariant forall k :: i <= k < data.Length ==>
            data[k] == old(data[k]) && other.data[k] == old(other.data[k])
        {
          data[i] := Apply(op, data[i], other.data[i]);
        }
        outcome := Pass;
      } else {
        outcome := Fail(SizeMismatch);
      }
    }

    method Add(summands: Field) returns (r: Result<Field>)
      ensures r.Failure? <==> data.Length != summands.data.Length
      ensures r.Failure? ==> r.error == SizeMismatch
      ensures r.Success? ==> fresh(r.value) && fresh(r.value.data)
      ensures r.Success? ==> r.value.data[..] == Pointwise(Plus, data[..], summands.data[..])
      ensures r.Success? ==> r.value.samplingRate == samplingRate && r.value.omega == omega
    {
      r := CombinedWith(Plus, summands);
    }

    method AddInPlace(summands: Field) returns (outcome: Outcome)
      modifies data
      ensures outcome.Fail? <==> data.Length != summands.data.Length
      ensures outcome.Fail? ==> outcome.error == SizeMismatch && data[..] == old(data[..])
      ensures outcome.Pass? ==> data[..] == Pointwise(Plus, old(data[..]), old(summands.data[..]))
    {
      outcome := CombineInPlace(Plus, summands);
    }

    method Subtract(subtrahends: Field) returns (r: Result<Field>)
      ensures r.Failure? <==> data.Length != subtrahends.data.Length
      ensures r.Failure? ==> r.error == SizeMismatch
      ensures r.Success? ==> fresh(r.value) && fresh(r.value.data)
      ensures r.Success? ==> r.value.data[..] == Pointwise(Minus, data[..], subtrahends.data[..])
      ensures r.Success? ==> r.value.samplingRate == samplingRate && r.value.omega == omega
    {
      r := CombinedWith(Minus, subtrahends);
    }

    method SubtractInPlace(subtrahends: Field) returns (outcome: Outcome)
      modifies data
      ensures outcome.Fail? <==> data.Length != subtrahends.data.Length
      ensures outcome.Fail? ==> outcome.error == SizeMismatch && data[..] == old(data[..])
      ensures outcome.Pass? ==> data[..] == Pointwise(Minus, old(data[..]), old(subtrahends.data[..]))
    {
      outcome := CombineInPlace(Minus, subtrahends);
    }

    method Multiply(multipliers: Field) returns (r: Result<Field>)
      ensures r.Failure? <==> data.Length != multipliers.data.Length
      ensures r.Failure? ==> r.error == SizeMismatch
      ensures r.Success? ==> fresh(r.value) && fresh(r.value.data)
      ensures r.Success? ==> r.value.data[..] == Pointwise(Times, data[..], multipliers.data[..])
      ensures r.Success? ==> r.value.samplingRate == samplingRate && r.value.omega == omega
    {
      r := CombinedWith(Times, multipliers);
    }

    method MultiplyInPlace(multipliers: Field) returns (outcome: Outcome)
      modifies data
      ensures outcome.Fail? <==> data.Length != multipliers.data.Length
      ensures outcome.Fail? ==> outcome.error == SizeMismatch && data[..] == old(data[..])
      ensures outcome.Pass? ==> data[..] == Pointwise(Times, old(data[..]), old(multipliers.data[..]))
    {
      outcome := CombineInPlace(Times, multipliers);
    }

    // ------------------------------------------------------------ scalar operators

    /** operator*(Complex): a scaled copy; it cannot fail. */
    method Scale(multiplier: Complex) returns (r: Field)
      ensures fresh(r) && fresh(r.data)
      ensures r.data[..] == Scaled(data[..], multiplier)
      ensures r.samplingRate == samplingRate && r.omega == omega
    {
      r := new Field.Copy(this);
      r.ScaleInPlace(multiplier);
    }

    /** operator*=(Complex). */
    method ScaleInPlace(multiplier: Complex)
      modifies data
      ensures data[..] == Scaled(old(data[..]), multiplier)
    {
      for i := 0 to data.Length
        invariant forall k :: 0 <= k < i ==> data[k] == Mul(old(data[k]), multiplier)
        invariant forall k :: i <= k < data.Length ==> data[k] == old(data[k])
      {
        data[i] := Mul(data[i], multiplier);
      }
    }

    /** operator/(Complex): a copy with every sample divided by the divider. */
    method Divide(divider: Complex) returns (r: Field)
      requires Norm(divider) != 0.0
      ensures fresh(r) && fresh(r.data)
      ensures r.data[..] == Divided(data[..], divider)
      ensures r.samplingRate == samplingRate && r.omega == omega
    {
      r := new Field.Copy(this);
      r.DivideInPlace(divider);
    }

    /** operator/=(Complex). */
    method DivideInPlace(divider: Complex)
      requires Norm(divider) != 0.0
      modifies data
      ensures data[..] == Divided(old(data[..]), divider)
    {
      for i := 0 to data.Length
        invariant forall k :: 0 <= k < i ==> data[k] == Div(old(data[k]), divider)
        invariant forall k :: i <= k < data.Length ==> data[k] == old(data[k])
      {
        data[i] := Div(data[i], divider);
      }
    }

    // ------------------------------------------------------------ time and frequency grid

    /** Stores the rate and rebuilds omega in DFT bin order: fill with the
        step 2 pi rate / n, then multiply bins 0..n/2 by their index and bins
        n/2+1..n-1 by their index minus n. */
    method SetSamplingRate(rate: real)
      requires data.Length > 0
      modifies this`samplingRate, this`omega
      ensures samplingRate == rate
      ensures omega == Grid(data.Length, rate)
    {
      samplingRate := rate;
      var samples := data.Length;
      ghost var grid := Grid(samples, rate);
      var step := 2.0 * Pi * rate / samples as real;
      assert step == GridStep(samples, rate);
      var w := seq(samples, _ => step);
      for i := 0 to samples / 2 + 1
        invariant |w| == samples
        invariant forall k :: 0 <= k < i ==> w[k] == grid[k]
        invariant forall k :: i <= k < samples ==> w[k] == step
      {
        assert grid[i] == step * i as real;
        w := w[i := w[i] * i as real];
      }
      for i := samples / 2 + 1 to samples
        invariant |w| == samples
        invariant forall k :: 0 <= k < i ==> w[k] == grid[k]
        invariant forall k :: i <= k < samples ==> w[k] == step
      {
        assert grid[i] == step * (i - samples) as real;
        w := w[i := w[i] * (i as real - samples as real)];
      }
      omega := w;
    }

    /** The time step, the inverse of the sampling rate. */
    function Dt(): (r: real)
      reads this
      requires samplingRate != 0.0
      ensures r * samplingRate == 1.0
    {
      1.0 / samplingRate
    }

    /** The frequency resolution: n steps of df span the sampling rate. */
    function Df(): (r: real)
      reads this
      requires data.Length > 0
      ensures r * data.Length as real == samplingRate
    {
      samplingRate / data.Length as real
    }

    /** The angular-frequency resolution, 2 pi df, which is the grid's step. */
    function Dw(): (r: real)
      reads this
      requires data.Length > 0
      ensures r == 2.0 * Pi * Df()
      ensures r == GridStep(data.Length, samplingRate)
    {
      GridStepInHertz(data.Length, samplingRate);
      2.0 * Pi * samplingRate / data.Length as real
    }

    /** The angular frequency of bin i: its signed bin index times dw. */
    function W(i: nat): (r: real)
      reads this
      requires i < |omega|
      ensures data.Length > 0 && omega == Grid(data.Length, samplingRate) ==>
        r == Dw() * BinIndex(data.Length, i) as real
    {
      omega[i]
    }

    /** The frequency of bin i, w(i) in hertz: its signed bin index times df. */
    function F(i: nat): (r: real)
      reads this
      requires i < |omega|
      ensures r * (2.0 * Pi) == W(i)
    {
      omega[i] / (2.0 * Pi)
    }

    /** On a built grid the frequency of entry i is the frequency step times
        its signed bin index. */
    lemma FrequencyOnGrid(i: nat)
      requires data.Length > 0 && omega == Grid(data.Length, samplingRate) && i < |omega|
      ensures F(i) == Df() * BinIndex(data.Length, i) as real
    {
      GridInHertz(data.Length, samplingRate, i);
    }

    /** Swaps sample i with sample i + n/2 for every i < n/2, in place. */
    method FftShift()
      modifies data
      ensures data[..] == Shifted(old(data[..]))
    {
      var halfSize := data.Length / 2;
      for i := 0 to halfSize
        invariant forall k :: 0 <= k < data.Length ==> (data[k] ==
          if k < i then old(data[k + halfSize])
          else if halfSize <= k < halfSize + i then old(data[k - halfSize])
          else old(data[k]))
      {
        var buffer := data[i];
        data[i] := data[i + halfSize];
        data[i + halfSize] := buffer;
      }
    }

    // ------------------------------------------------------------ transforms

    /** Writes the output of an in-place transform back into the buffer. */
    method Load(s: seq<Complex>)
      requires |s| == data.Length
      modifies data
      ensures data[..] == s
    {
      forall k | 0 <= k < data.Length {
        data[k] := s[k];
      }
    }

    /** fft(): a transformed copy, normalised by multiplying with 1/n. The
        unnormalised forward transform of the backend is the parameter dft. */
    method Fft(dft: seq<Complex> -> seq<Complex>) returns (transformed: Field)
      requires data.Length > 0 && |dft(data[..])| == data.Length
      ensures fresh(transformed) && fresh(transformed.data)
      ensures transformed.data[..] == Scaled(dft(data[..]), FromReal(1.0 / data.Length as real))
      ensures transformed.samplingRate == samplingRate && transformed.omega == omega
    {
      transformed := new Field.Copy(this);
      transformed.Load(dft(transformed.data[..]));
      transformed.ScaleInPlace(FromReal(1.0 / data.Length as real));
    }

    /** ifft(): a transformed copy, not normalised. */
    method Ifft(idft: seq<Complex> -> seq<Complex>) returns (transformed: Field)
      requires |idft(data[..])| == data.Length
      ensures fresh(transformed) && fresh(transformed.data)
      ensures transformed.data[..] == idft(data[..])
      ensures transformed.samplingRate == samplingRate && transformed.omega == omega
    {
      transformed := new Field.Copy(this);
      transformed.Load(idft(transformed.data[..]));
    }

    /** fft_inplace(): transform the buffer, then divide every sample by n. */
    method FftInPlace(dft: seq<Complex> -> seq<Complex>)
      requires data.Length > 0 && |dft(data[..])| == data.Length
      modifies data
      ensures forall i :: 0 <= i < data.Length ==>
        data[i] == DivReal(dft(old(data[..]))[i], data.Length as real)
    {
      Load(dft(data[..]));
      ghost var transformed := data[..];
      for i := 0 to data.Length
        invariant forall k :: 0 <= k < i ==> data[k] == DivReal(transformed[k], data.Length as real)
        invariant forall k :: i <= k < data.Length ==> data[k] == transformed[k]
      {
        data[i] := DivReal(data[i], data.Length as real);
      }
    }

    /** ifft_inplace(): transform the buffer, not normalised. */
    method IfftInPlace(idft: seq<Complex> -> seq<Complex>)
      requires |idft(data[..])| == data.Length
      modifies data
      ensures data[..] == idft(old(data[..]))
    {
      Load(idft(data[..]));
    }

    /** The per-sample power of the forward transform of a copy; the receiver
        is untouched. */
    method SpectralPower(dft: seq<Complex> -> seq<Complex>) returns (power: seq<real>)
      requires data.Length > 0 && |dft(data[..])| == data.Length
      ensures |power| == data.Length
      ensures forall i :: 0 <= i < data.Length ==>
        power[i] == Norm(DivReal(dft(data[..])[i], data.Length as real))
    {
      var copy := new Field.Copy(this);
      copy.FftInPlace(dft);
      power := copy.TemporalPower();
    }
  }

  /** The copying forward transform multiplies by 1/n and the in-place one
      divides by n: the two normalisations agree. */
  lemma FftFormsAgree(z: Complex, n: nat)
    requires n > 0
    ensures Mul(z, FromReal(1.0 / n as real)) == DivReal(z, n as real)
  {
  }

  /** If the backend's backward transform undoes its forward transform up to
      the factor n (FFTW's convention) and is linear, then ifft(fft(x)) == x. */
  lemma TransformRoundTrip(dft: seq<Complex> -> seq<Complex>, idft: seq<Complex> -> seq<Complex>,
                           x: seq<Complex>)
    requires |x| > 0
    requires idft(dft(x)) == Scaled(x, FromReal(|x| as real))
    requires forall s: seq<Complex>, c: Complex :: idft(Scaled(s, c)) == Scaled(idft(s), c)
    ensures idft(Scaled(dft(x), FromReal(1.0 / |x| as real))) == x
  {
    var n := |x| as real;
    var y := idft(Scaled(dft(x), FromReal(1.0 / n)));
    assert y == Scaled(Scaled(x, FromReal(n)), FromReal(1.0 / n));
    forall i | 0 <= i < |x|
      ensures y[i] == x[i]
    {
      assert x[i].re * n * (1.0 / n) == x[i].re;
      assert x[i].im * n * (1.0 / n) == x[i].im;
    }
  }

  /** One more outer iteration adds the term x[i] * y[k - i] when its index
      into y is in range. */
  lemma PartialConvStep(x: seq<Complex>, y: seq<Complex>, k: int, i: nat)
    requires i < |x|
    ensures PartialConv(x, y, k, i + 1) ==
      if i <= k < i + |y| then Add(PartialConv(x, y, k, i), Mul(x[i], y[k - i])) else PartialConv(x, y, k, i)
  {
  }

  /** The inner loop of convolution: z[i + j] += x[i] * y[j] for every j. */
  method AccumulateRow(z: array<Complex>, i: nat, xi: Complex, y: array<Complex>)
    requires z != y && i + y.Length <= z.Length
    modifies z
    ensures forall k :: 0 <= k < z.Length ==> (z[k] ==
      if i <= k < i + y.Length then Add(old(z[k]), Mul(xi, y[k - i])) else old(z[k]))
  {
    for j := 0 to y.Length
      invariant forall k :: 0 <= k < z.Length ==> (z[k] ==
        if i <= k < i + j then Add(old(z[k]), Mul(xi, y[k - i])) else old(z[k]))
    {
      z[i + j] := Add(z[i + j], Mul(xi, y[j]));
    }
  }

  /** convolution(x, y): z has |x| + |y| - 1 samples and z[k] is the sum of
      x[i] * y[j] over i + j == k. Two empty fields would make the unsigned
      length wrap around. */
  method Convolution(x: Field, y: Field) returns (z: Field)
    requires x.data.Length + y.data.Length >= 1
    ensures fresh(z) && fresh(z.data)
    ensures z.data[..] == Convolved(x.data[..], y.data[..])
  {
    var size := x.data.Length + y.data.Length - 1;
    z := new Field.Zeros(size);
    var buffer := z.data;
    ghost var xs, ys := x.data[..], y.data[..];
    for i := 0 to x.data.Length
      modifies buffer
      invariant forall k :: 0 <= k < size ==> buffer[k] == PartialConv(xs, ys, k, i)
    {
      AccumulateRow(buffer, i, x.data[i], y.data);
      forall k | 0 <= k < size
        ensures buffer[k] == PartialConv(xs, ys, k, i + 1)
      {
        PartialConvStep(xs, ys, k, i);
      }
    }
    assert forall k :: 0 <= k < size ==> buffer[k] == Convolved(xs, ys)[k];
  }

  /** Two Fields, the right- and left-circular components of the light. */
  class Polarizations {
    var right: Field
    var left: Field

    /** The two components are distinct buffers. */
    ghost predicate Valid()
      reads this, right, left
    {
      right.data != left.data
    }

    constructor (right: Field, left: Field)
      requires right.data != left.data
      ensures this.right == right && this.left == left && Valid()
    {
      this.right := right;
      this.left := left;
    }

    /** x(): the linear-x projection (right + left) / sqrt(2). */
    method X(m: Libm) returns (r: Result<Field>)
      requires m.sqrt(2.0) * m.sqrt(2.0) == 2.0
      ensures r.Failure? <==> right.data.Length != left.data.Length
      ensures r.Failure? ==> r.error == SizeMismatch
      ensures r.Success? ==> fresh(r.value) && fresh(r.value.data)
      ensures r.Success? ==>
        r.value.data[..] == Divided(Pointwise(Plus, right.data[..], left.data[..]), FromReal(m.sqrt(2.0)))
      ensures r.Success? ==> r.value.samplingRate == right.samplingRate && r.value.omega == right.omega
    {
      var sum := right.Add(left);
      if sum.Failure? {
        return Failure(sum.error);
      }
      var projected := sum.value.Divide(FromReal(m.sqrt(2.0)));
      r := Success(projected);
    }

    /** y(): the linear-y projection (right - left) / (i sqrt(2)). */
    method Y(m: Libm) returns (r: Result<Field>)
      requires m.sqrt(2.0) * m.sqrt(2.0) == 2.0
      ensures r.Failure? <==> right.data.Length != left.data.Length
      ensures r.Failure? ==> r.error == SizeMismatch
      ensures r.Success? ==> fresh(r.value) && fresh(r.value.data)
      ensures r.Success? ==>
        r.value.data[..] == Divided(Pointwise(Minus, right.data[..], left.data[..]), Complex(0.0, m.sqrt(2.0)))
      ensures r.Success? ==> r.value.samplingRate == right.samplingRate && r.value.omega == right.omega
    {
      var difference := right.Subtract(left);
      if difference.Failure? {
        return Failure(difference.error);
      }
      var projected := difference.value.Divide(Complex(0.0, m.sqrt(2.0)));
      r := Success(projected);
    }

    /** operator*(Complex): both components scaled, in a new pair. */
    method Scale(multiplier: Complex) returns (r: Polarizations)
      ensures fresh(r) && fresh(r.right) && fresh(r.left) && fresh(r.right.data) && fresh(r.left.data)
      ensures r.Valid()
      ensures r.right.data[..] == Scaled(right.data[..], multiplier)
      ensures r.left.data[..] == Scaled(left.data[..], multiplier)
      ensures r.right.samplingRate == right.samplingRate && r.right.omega == right.omega
      ensures r.left.samplingRate == left.samplingRate && r.left.omega == left.omega
    {
      var scaledRight := right.Scale(multiplier);
      var scaledLeft := left.Scale(multiplier);
      r := new Polarizations(scaledRight, scaledLeft);
    }

    /** operator*(Field): both components multiplied field-wise, in a new
        pair; throws if either component's length differs from the multipliers'. */
    method MultiplyField(multipliers: Field) returns (r: Result<Polarizations>)
      ensures r.Failure? <==>
        right.data.Length != multipliers.data.Length || left.data.Length != multipliers.data.Length
      ensures r.Failure? ==> r.error == SizeMismatch
      ensures r.Success? ==> fresh(r.value) && fresh(r.value.right) && fresh(r.value.left)
      ensures r.Success? ==> fresh(r.value.right.data) && fresh(r.value.left.data) && r.value.Valid()
      ensures r.Success? ==> r.value.right.data[..] == Pointwise(Times, right.data[..], multipliers.data[..])
      ensures r.Success? ==> r.value.left.data[..] == Pointwise(Times, left.data[..], multipliers.data[..])
      ensures r.Success? ==> r.value.right.samplingRate == right.samplingRate && r.value.right.omega == right.omega
      ensures r.Success? ==> r.value.left.samplingRate == left.samplingRate && r.value.left.omega == left.omega
    {
      var newRight := right.Multiply(multipliers);
      if newRight.Failure? {
        return Failure(newRight.error);
      }
      var newLeft := left.Multiply(multipliers);
      if newLeft.Failure? {
        return Failure(newLeft.error);
      }
      var pair := new Polarizations(newRight.value, newLeft.value);
      r := Success(pair);
    }

    /** operator*=(Complex): both components scaled in place. */
    method ScaleInPlace(multiplier: Complex)
      requires Valid()
      modifies right.data, left.data
      ensures right.data[..] == Scaled(old(right.data[..]), multiplier)
      ensures left.data[..] == Scaled(old(left.data[..]), multiplier)
    {
      right.ScaleInPlace(multiplier);
      left.ScaleInPlace(multiplier);
    }

    /** operator*=(Field): right *= multipliers, then left *= multipliers.
        The pair is not updated atomically: if only the left component's
        length differs, right has already been multiplied when the error is
        thrown. If the multipliers are the right component itself, left is
        multiplied by the already updated right component. */
    method MultiplyFieldInPlace(multipliers: Field) returns (outcome: Outcome)
      requires Valid()
      modifies right.data, left.data
      ensures outcome.Fail? <==>
        right.data.Length != multipliers.data.Length || left.data.Length != multipliers.data.Length
      ensures outcome.Fail? ==> outcome.error == SizeMismatch
      ensures right.data.Length != multipliers.data.Length ==>
        right.data[..] == old(right.data[..]) && left.data[..] == old(left.data[..])
      ensures right.data.Length == multipliers.data.Length ==>
        right.data[..] == Pointwise(Times, old(right.data[..]), old(multipliers.data[..]))
      ensures right.data.Length == multipliers.data.Length && left.data.Length != multipliers.data.Length ==>
        left.data[..] == old(left.data[..])
      ensures outcome.Pass? ==> left.data[..] == Pointwise(Times, old(left.data[..]),
        if multipliers.data == right.data then right.data[..] else old(multipliers.data[..]))
    {
      outcome := right.MultiplyInPlace(multipliers);
      if outcome.Fail? {
        return;
      }
      outcome := left.MultiplyInPlace(multipliers);
    }
  }

  /** The linear projections carry the same total power as the circular pair:
      |x|^2 + |y|^2 == |right|^2 + |left|^2 sample by sample. */
  lemma ProjectionsKeepPower(m: Libm, right: seq<Complex>, left: seq<Complex>)
    requires |right| == |left|
    requires m.sqrt(2.0) * m.sqrt(2.0) == 2.0
    ensures var x := Divided(Pointwise(Plus, right, left), FromReal(m.sqrt(2.0)));
      var y := Divided(Pointwise(Minus, right, left), Complex(0.0, m.sqrt(2.0)));
      forall i :: 0 <= i < |right| ==> Norm(x[i]) + Norm(y[i]) == Norm(right[i]) + Norm(left[i])
  {
    var s := m.sqrt(2.0);
    assert Norm(FromReal(s)) == 2.0;
    assert Norm(Complex(0.0, s)) == 2.0;
    forall i | 0 <= i < |right|
      ensures Norm(Div(Add(right[i], left[i]), FromReal(s))) + Norm(Div(Sub(right[i], left[i]), Complex(0.0, s)))
        == Norm(right[i]) + Norm(left[i])
    {
      NormDiv(Add(right[i], left[i]), FromReal(s));
      NormDiv(Sub(right[i], left[i]), Complex(0.0, s));
      Parallelogram(right[i], left[i]);
    }
  }
}
