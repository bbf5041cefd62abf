/** The half-wave plus quarter-wave plate module: two angles and a map that
    rebuilds both circular components of a Polarizations from its right one. */
module WavePlates {
  import opened Complexes
  import opened MathLibrary
  import opened Samples
  import opened Fields
  import opened Utility

  /** The component the plates produce from E_1: E_1 e^(i phase) amplitude. */
  function PlateOutput(m: Libm, e1: seq<Complex>, phase: real, amplitude: real): (r: seq<Complex>)
    ensures |r| == |e1|
  {
    Scaled(Scaled(e1, IExp(m, phase)), FromReal(amplitude))
  }

  class HwpQwp {
    var name: string
    var psi: real
    var chi: real

    /** The plates with both angles 0. */
    constructor ()
      ensures name == "hwp+qwp" && psi == 0.0 && chi == 0.0
    {
      name := "hwp+qwp";
      psi := 0.0;
      chi := 0.0;
    }

    constructor WithAngles(psi: real, xi: real)
      ensures name == "hwp+qwp" && this.psi == psi && chi == xi
    {
      name := "hwp+qwp";
      this.psi := psi;
      chi := xi;
    }

    /** A single field passes through untouched. */
    method ExecuteField(signal: Field)
      ensures signal.data[..] == old(signal.data[..])
      ensures signal.samplingRate == old(signal.samplingRate) && signal.omega == old(signal.omega)
    {
    }

    /** right' = E_1 e^(i psi) cos(chi - pi/4) and left' = E_1 e^(-i psi)
        cos(chi + pi/4), where E_1 is the right component before the call;
        the old left component is discarded. Both new components are fresh
        copies carrying E_1's sampling rate and grid, and the angles stay. */
    method Execute(m: Libm, signal: Polarizations)
      modifies signal
      ensures signal.right.data[..] == PlateOutput(m, old(signal.right.data[..]), psi, m.cos(chi - Pi / 4.0))
      ensures signal.left.data[..] == PlateOutput(m, old(signal.right.data[..]), -psi, m.cos(chi + Pi / 4.0))
      ensures fresh(signal.right) && fresh(signal.right.data) && fresh(signal.left) && fresh(signal.left.data)
      ensures signal.right.samplingRate == old(signal.right.samplingRate) && signal.right.omega == old(signal.right.omega)
      ensures signal.left.samplingRate == old(signal.right.samplingRate) && signal.left.omega == old(signal.right.omega)
      ensures signal.Valid()
    {
      var e1 := signal.right;
      var turned := e1.Scale(IExp(m, psi));
      var right := turned.Scale(FromReal(m.cos(chi - Pi / 4.0)));
      var counterTurned := e1.Scale(IExp(m, -psi));
      var left := counterTurned.Scale(FromReal(m.cos(chi + Pi / 4.0)));
      signal.right := right;
      signal.left := left;
    }

    method ChangePsi(psi: real)
      modifies this`psi
      ensures this.psi == psi
    {
      this.psi := psi;
    }

    method ChangeChi(chi: real)
      modifies this`chi
      ensures this.chi == chi
    {
      this.chi := chi;
    }
  }

  /** A sample leaving the plates has the power of E_1 times amplitude^2. */
  lemma PlateSamplePower(m: Libm, z: Complex, phase: real, amplitude: real)
    requires m.cos(phase) * m.cos(phase) + m.sin(phase) * m.sin(phase) == 1.0
    ensures Norm(Mul(Mul(z, IExp(m, phase)), FromReal(amplitude))) == Norm(z) * (amplitude * amplitude)
  {
    PhasorKeepsPower(m, z, phase);
    NormMul(Mul(z, IExp(m, phase)), FromReal(amplitude));
  }

  /** The phase does not change the power of an output: every sample
      carries the power of E_1 weighted by the square of the amplitude. */
  lemma PlateOutputPower(m: Libm, e1: seq<Complex>, phase: real, amplitude: real)
    requires m.cos(phase) * m.cos(phase) + m.sin(phase) * m.sin(phase) == 1.0
    ensures forall i :: 0 <= i < |e1| ==>
      Norm(PlateOutput(m, e1, phase, amplitude)[i]) == Norm(e1[i]) * (amplitude * amplitude)
  {
    forall i | 0 <= i < |e1|
      ensures Norm(PlateOutput(m, e1, phase, amplitude)[i]) == Norm(e1[i]) * (amplitude * amplitude)
    {
      PlateSamplePower(m, e1[i], phase, amplitude);
    }
  }

  /** When the squares of the two cosines add up to 1, as
      cos(chi - pi/4)^2 + cos(chi + pi/4)^2 does for the true cosine, the
      plates conserve the power of E_1 sample by sample. */
  lemma PlatesKeepPower(m: Libm, e1: seq<Complex>, psi: real, chi: real)
    requires forall y :: m.cos(y) * m.cos(y) + m.sin(y) * m.sin(y) == 1.0
    requires m.cos(chi - Pi / 4.0) * m.cos(chi - Pi / 4.0) + m.cos(chi + Pi / 4.0) * m.cos(chi + Pi / 4.0) == 1.0
    ensures forall i :: 0 <= i < |e1| ==>
      Norm(PlateOutput(m, e1, psi, m.cos(chi - Pi / 4.0))[i]) +
      Norm(PlateOutput(m, e1, -psi, m.cos(chi + Pi / 4.0))[i]) == Norm(e1[i])
  {
    var a := m.cos(chi - Pi / 4.0);
    var b := m.cos(chi + Pi / 4.0);
    PlateOutputPower(m, e1, psi, a);
    PlateOutputPower(m, e1, -psi, b);
    forall i | 0 <= i < |e1|
      ensures Norm(PlateOutput(m, e1, psi, a)[i]) + Norm(PlateOutput(m, e1, -psi, b)[i]) == Norm(e1[i])
    {
      var p := Norm(e1[i]);
      assert p * (a * a) + p * (b * b) == p * (a * a + b * b);
    }
  }

  /** With psi = 0 and an even cosine the plates split E_1 into two equal
      components: cos(-pi/4) = cos(pi/4) and e^(i0) = e^(-i0). */
  lemma DefaultPlatesSplitEvenly(m: Libm, e1: seq<Complex>)
    requires forall y :: m.cos(-y) == m.cos(y)
    ensures PlateOutput(m, e1, 0.0, m.cos(0.0 - Pi / 4.0)) == PlateOutput(m, e1, -0.0, m.cos(0.0 + Pi / 4.0))
  {
    assert 0.0 - Pi / 4.0 == -(0.0 + Pi / 4.0);
  }
}
