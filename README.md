# Fiber-laser simulator core in Dafny

This project models the signal core of a fiber-laser round-trip simulator:

- the `Field`: a buffer of complex samples with a sampling rate and an
  angular-frequency grid. It supports power queries, cropping (`chomp`),
  field-wise and scalar arithmetic, FFT normalisation, `fft_shift` and
  convolution.
- `Polarizations`: the pair of circular components `right` and `left`, with
  the linear projections `x()` and `y()`.
- the half-wave plus quarter-wave plate module `HWP_QWP`.
- the free helpers of `utility.cpp`: `sinc`, the decibel conversions,
  `disp_to_beta2`, `i_exp`, `sqrt(Field)` and the sech, Gaussian and
  Lorentzian pulse generators.

Samples are `std::complex<double>`. Here they are pairs of exact reals (`Complexes.Complex`).

The `<cmath>` functions the code calls are fields of a record, `MathLibrary.Libm`. That record is a parameter. A member that depends on a property of those functions states it as a `requires` clause, such as `exp(0) = 1` or `cos^2 + sin^2 = 1`. Nothing else is assumed about them.

The FFT backend (FFTW) is a function parameter too. The transform round trip is proved from the backend's own law: the backward transform undoes the forward one up to the factor n, and it is linear.

Each kind of source code takes a matching form in the model:

- Code that updates state step by step is imperative Dafny. `Field` is a class whose `data` array the in-place operators change. The copying operators return fresh Fields. The loops carry their invariants.
- The wave plates are a class with the two angles as fields.
- Pure expressions are functions.
- Most methods are proved against a specification function in module `Samples` or `Utility`, and lemmas prove that function's properties. `PeakPower`, `TemporalPower`, `Chomp` and `SqrtField` state their results directly, sample by sample. `HwpQwp.Execute` is stated against `WavePlates.PlateOutput`.

Files:

- `complex.dfy`: modules `Complexes` and `MathLibrary`.
- `samples.dfy`: module `Samples`, the specification functions over sample sequences.
- `field.dfy`: module `Fields`.
- `utility.dfy`: module `Utility`.
- `hwp_qwp.dfy`: module `WavePlates`.

## Model

| member | source | states |
|---|---|---|
| Fields.Field.Zeros | src/core/field.cpp:21 | a new field of n samples, all zero |
| Fields.Field.Filled | src/utility.cpp:53 | a new field of n samples, each equal to the given value |
| Fields.Field.Copy | src/core/field.cpp:30 | the copy has the same samples, sampling rate and grid as the original, in a fresh buffer |
| Fields.Field.PeakPower | src/core/field.cpp:3-9 | the result is at least 0, at least every sample's power, and equal to some sample's power when the field is non-empty: the maximum of the per-sample powers; 0 for an empty field |
| Fields.Field.AveragePower | src/core/field.cpp:11-17 | the result is the sum of the per-sample powers divided by n |
| Samples.SumNormsBounds | src/core/field.cpp:11-17 | the summed power lies between 0 and n times any bound on the sample powers |
| Samples.AverageAtMostPeak | src/core/field.cpp:3-17 | the average power is non-negative and never exceeds any bound on every sample's power, the peak power among them |
| Fields.Field.TemporalPower | src/core/field.cpp:152-158 | one entry per sample, equal to that sample's power |
| Fields.Field.Chomp | src/core/field.cpp:19-27 | a new field holding exactly the samples between the first atBegin and the last atEnd |
| Fields.Field.CombinedWith | src/core/field.cpp:29-38 | the copying field-wise operators: a size-mismatch error exactly when the lengths differ; otherwise a fresh field whose sample i combines sample i of each operand, with the receiver's rate and grid |
| Fields.Field.CombineInPlace | src/core/field.cpp:40-47 | the compound field-wise operators: on a size mismatch, an error and nothing changed; otherwise every sample is combined with the operand's sample as it was before the call, which also holds when the operand is the receiver |
| Fields.Field.Add | src/core/field.cpp:29-38 | operator+: the error exactly when the lengths differ, otherwise the sample-wise sum |
| Fields.Field.AddInPlace | src/core/field.cpp:40-47 | operator+=: the error and no change exactly when the lengths differ, otherwise the sample-wise sum |
| Fields.Field.Subtract | src/core/field.cpp:49-57 | operator-: the error exactly when the lengths differ, otherwise the sample-wise difference |
| Fields.Field.SubtractInPlace | src/core/field.cpp:59-66 | operator-=: the error and no change exactly when the lengths differ, otherwise the sample-wise difference |
| Fields.Field.Multiply | src/core/field.cpp:75-84 | operator*(Field): the error exactly when the lengths differ, otherwise the sample-wise product |
| Fields.Field.MultiplyInPlace | src/core/field.cpp:92-100 | operator*=(Field): the error and no change exactly when the lengths differ, otherwise the sample-wise product |
| Samples.AddThenSubtract | src/core/field.cpp:29-57 | subtracting what was added gives back the original samples |
| Samples.TimesCommutes | src/core/field.cpp:75-84 | the field-wise product does not depend on the order of the operands |
| Fields.Field.Scale | src/core/field.cpp:68-73 | operator*(Complex): a fresh field with every sample multiplied by the constant, with the same rate and grid |
| Fields.Field.ScaleInPlace | src/core/field.cpp:86-90 | operator*=(Complex): every sample is multiplied by the constant |
| Fields.Field.Divide | src/core/field.cpp:102-108 | operator/(Complex): a fresh field with every sample divided by the constant |
| Fields.Field.DivideInPlace | src/core/field.cpp:121-125 | operator/=(Complex): every sample is divided by the constant |
| Samples.ScaleThenDivide | src/core/field.cpp:68-108 | dividing by the constant undoes multiplying by it |
| Fields.Field.SetSamplingRate | src/core/field.cpp:127-138 | the rate is stored and the grid is rebuilt as the DFT-ordered angular-frequency grid of that rate |
| Samples.GridDc | src/core/field.cpp:130-133 | grid entry 0 is DC, frequency 0 |
| Samples.GridUniform | src/core/field.cpp:130-137 | neighbouring grid entries are one step 2 pi rate / n apart, except across the jump from bin n/2 to the most negative bin |
| Samples.GridMirror | src/core/field.cpp:132-137 | entry n - i is the negative of entry i below the Nyquist bin |
| Samples.GridNyquist | src/core/field.cpp:132-133 | for even n, entry n/2 is the positive Nyquist frequency pi rate |
| Samples.GridInHertz | src/core/field.cpp:148 | entry i divided by 2 pi is the signed bin index times rate / n |
| Samples.GridStepInHertz | src/core/field.cpp:144-146 | the angular step is 2 pi times the frequency resolution rate / n |
| Fields.Field.Dt | src/core/field.cpp:142 | the time step times the sampling rate is 1 |
| Fields.Field.Df | src/core/field.cpp:144 | the frequency step times n is the sampling rate |
| Fields.Field.Dw | src/core/field.cpp:146 | the angular step is 2 pi times the frequency step, and it is the grid's step |
| Fields.Field.W | src/core/field.cpp:150 | on a grid built by setSamplingRate, entry i is the angular step times the signed bin index |
| Fields.Field.F | src/core/field.cpp:148 | the frequency of entry i times 2 pi is its angular frequency |
| Fields.Field.FrequencyOnGrid | src/core/field.cpp:127-148 | on a grid built by setSamplingRate, the frequency of entry i is the frequency step times the signed bin index |
| Fields.Field.FftShift | src/core/field.cpp:225-235 | the samples become the half-swapped sequence: i and i + n/2 trade places for i < n/2, and an odd last sample stays |
| Samples.ShiftedSwapsHalves | src/core/field.cpp:225-235 | the shift is the second half, then the first half, then any odd last sample |
| Samples.ShiftedPermutes | src/core/field.cpp:225-235 | the shift is a permutation of the samples |
| Samples.ShiftedTwice | src/core/field.cpp:225-235 | shifting twice restores the samples, for even and odd n |
| Samples.ShiftedCentresDc | src/core/field.cpp:225-235 | the DC sample moves to index n/2 |
| Samples.ShiftedGridAscends | src/core/field.cpp:127-138 | the shifted even-length grid ascends in equal steps from index 1, with DC at n/2 and the positive Nyquist bin at 0 |
| Fields.Field.Load | src/core/field.cpp:172-178 | the in-place transform overwrites the whole buffer with its result |
| Fields.Field.Fft | src/core/field.cpp:170-183 | a fresh field holding the forward transform multiplied by 1/n, with the same rate and grid |
| Fields.Field.Ifft | src/core/field.cpp:185-196 | a fresh field holding the unnormalised backward transform |
| Fields.Field.FftInPlace | src/core/field.cpp:198-211 | every sample becomes the forward transform's sample divided by n |
| Fields.Field.IfftInPlace | src/core/field.cpp:213-223 | the buffer becomes the backward transform of its old contents |
| Fields.Field.SpectralPower | src/core/field.cpp:160-168 | entry i is the power of sample i of the normalised forward transform, and the field is left unchanged |
| Fields.FftFormsAgree | src/core/field.cpp:181 | multiplying by 1/n (fft) and dividing by n (fft_inplace) agree |
| Fields.TransformRoundTrip | src/core/field.cpp:170-196 | ifft(fft(x)) == x for a backend whose backward transform is linear and undoes the forward one up to n |
| Fields.Convolution | src/core/field.cpp:263-270 | a fresh field of len(x) + len(y) - 1 samples, where sample k is the sum of x[i] y[j] over i + j == k, added in loop order |
| Fields.AccumulateRow | src/core/field.cpp:266-267 | the inner loop adds x[i] y[k - i] to exactly the outputs i <= k < i + len(y) and leaves the others unchanged |
| Fields.PartialConvStep | src/core/field.cpp:265-267 | one outer iteration adds the term x[i] y[k - i] exactly when its index into y is in range |
| Samples.ConvolvedWithUnit | src/core/field.cpp:263-270 | convolving with the unit impulse [1] returns the signal |
| Samples.UnitConvolvedWith | src/core/field.cpp:263-270 | the unit impulse on the left is neutral as well |
| Samples.PartialConvUnit | src/core/field.cpp:265-267 | the running sum against [1] at output k is x[k] once the loop has passed index k, and 0 before |
| Fields.Polarizations.constructor | src/core/field.cpp:241-243 | a pair of the two given components |
| Fields.Polarizations.X | src/core/field.cpp:237 | (right + left) / sqrt 2, with the size-mismatch error exactly when the components' lengths differ |
| Fields.Polarizations.Y | src/core/field.cpp:239 | (right - left) / (i sqrt 2), with the size-mismatch error exactly when the components' lengths differ |
| Fields.ProjectionsKeepPower | src/core/field.cpp:237-239 | sample by sample, the x and y projections carry the power of the circular pair |
| Fields.Polarizations.Scale | src/core/field.cpp:241-243 | a fresh pair with both components multiplied by the constant, each keeping its own rate and grid |
| Fields.Polarizations.MultiplyField | src/core/field.cpp:245-247 | the error exactly when either component's length differs from the multipliers', otherwise both components multiplied sample-wise, each keeping its own rate and grid |
| Fields.Polarizations.ScaleInPlace | src/core/field.cpp:249-254 | both components are multiplied by the constant in place |
| Fields.Polarizations.MultiplyFieldInPlace | src/core/field.cpp:256-261 | right is multiplied first and left second; if only left's length mismatches, right is already multiplied when the error arises; if the multipliers are right itself, left is multiplied by the updated right |
| Utility.Sinc | src/utility.cpp:3-6 | sinc(0) = 1, and otherwise sinc(x) pi x = sin(pi x) |
| Utility.SincEven | src/utility.cpp:3-6 | for an odd sine, sinc is even |
| Utility.DbToLinear | src/utility.cpp:8-10 | the linear factor is positive for a positive power function, and read back in decibels (10 log10) it is the original dB value |
| Utility.DbToNatural | src/utility.cpp:16-18 | the natural-unit value is the natural logarithm of the linear factor |
| Utility.DbmToWatts | src/utility.cpp:12-14 | watts times 1000 is the linear value of the dBm figure: milliwatts to watts |
| Utility.ZeroDecibels | src/utility.cpp:8-18 | 0 dB is the factor 1 and 0 in natural units; 0 dBm is 1 mW |
| Utility.DecibelsAdd | src/utility.cpp:8-18 | adding decibels multiplies the linear factors and adds the natural-unit values |
| Utility.NaturalMatchesLinear | src/utility.cpp:8-18 | exp of the natural-unit value is the linear factor |
| Utility.DispToBeta2 | src/utility.cpp:20-23 | at a non-zero wavelength, D is recovered from beta2 as -2 pi c beta2 / lambda^2 |
| Utility.DispersionSign | src/utility.cpp:20-23 | beta2 has the sign opposite to D for a non-zero wavelength, and is 0 for D = 0 |
| Utility.IExp | src/utility.cpp:25 | i_exp(x) has unit magnitude, and i_exp(0) = 1 |
| Utility.PhasorKeepsPower | src/utility.cpp:25 | multiplying by i_exp(x) keeps a sample's power |
| Utility.IExpConjugate | src/utility.cpp:25 | i_exp(-x) is the conjugate of i_exp(x) |
| Utility.SqrtField | src/utility.cpp:27-32 | a fresh field of the same length whose sample i is sqrt of the real part of sample i, imaginary part dropped, with the argument's rate and grid |
| Utility.SqrtGivesPower | src/utility.cpp:27-32 | for non-negative real parts, the root field's power is the original real part |
| Utility.SechArgumentSpan | src/utility.cpp:37-39 | the time coordinate runs from -10 at the first sample to 10 at the last and mirrors around the middle |
| Utility.SechPulse | src/utility.cpp:34-47 | n samples, sample i = sech(t_i / width) / width, sampling rate n/4 and the matching grid |
| Utility.SechSymmetric | src/utility.cpp:34-47 | for an even cosh, sample i equals sample n-1-i |
| Utility.SechPeak | src/utility.cpp:34-47 | for odd n the middle sample sits at t = 0 and holds 1 / width |
| Utility.PulseArgumentMirrors | src/utility.cpp:55-56 | samples n/2 - k and n/2 + k sit at opposite times, and n/2 sits at 0 |
| Utility.GaussianFactorEven | src/utility.cpp:57 | the Gaussian envelope is even in t and is exp 0 at t = 0 |
| Utility.Gaussian | src/utility.cpp:49-61 | n samples, sample i = sqrt(P) exp(-2 ln 2 t_i^2 / fwhm^2) |
| Utility.GaussianPeak | src/utility.cpp:49-61 | the sample at n/2 is sqrt(peak power) |
| Utility.GaussianSymmetric | src/utility.cpp:49-61 | samples n/2 - k and n/2 + k are equal |
| Utility.GaussianHalfPower | src/utility.cpp:57 | half a fwhm from the centre the power is half the peak power |
| Utility.LorentzianFactor | src/utility.cpp:71 | the envelope 1 / (1 + 4 t^2 / fwhm^2) lies in (0, 1] |
| Utility.LorentzianFactorEven | src/utility.cpp:71 | the Lorentzian envelope is even in t |
| Utility.Lorentzian | src/utility.cpp:63-75 | n samples, sample i = sqrt(P) / (1 + 4 t_i^2 / fwhm^2) |
| Utility.LorentzianPeak | src/utility.cpp:63-75 | the sample at n/2 is sqrt(peak power), and no sample has more power |
| Utility.LorentzianSymmetric | src/utility.cpp:63-75 | samples n/2 - k and n/2 + k are equal |
| Utility.LorentzianHalfAmplitude | src/utility.cpp:71 | half a fwhm from the centre the amplitude factor is 1/2 |
| WavePlates.HwpQwp.constructor | src/modules/hwp_qwp.cpp:4-8 | name "hwp+qwp", both angles 0 |
| WavePlates.HwpQwp.WithAngles | src/modules/hwp_qwp.cpp:10-14 | name "hwp+qwp", psi and chi as given |
| WavePlates.HwpQwp.ExecuteField | src/modules/hwp_qwp.cpp:16 | a single field is left unchanged |
| WavePlates.HwpQwp.Execute | src/modules/hwp_qwp.cpp:18-26 | right' = E1 e^(i psi) cos(chi - pi/4) and left' = E1 e^(-i psi) cos(chi + pi/4), both from the old right E1; the old left is discarded; both carry E1's rate and grid, in distinct fresh buffers; the angles stay |
| WavePlates.HwpQwp.ChangePsi | src/modules/hwp_qwp.cpp:28 | only psi changes, to the given value |
| WavePlates.HwpQwp.ChangeChi | src/modules/hwp_qwp.cpp:30 | only chi changes, to the given value |
| WavePlates.PlateSamplePower | src/modules/hwp_qwp.cpp:22-23 | an output sample has E1's power times the squared cosine |
| WavePlates.PlateOutputPower | src/modules/hwp_qwp.cpp:22-23 | the phase factor does not change the power of any output sample |
| WavePlates.PlatesKeepPower | src/modules/hwp_qwp.cpp:18-23 | when the two squared cosines add up to 1, the two outputs together carry exactly E1's power |
| WavePlates.DefaultPlatesSplitEvenly | src/modules/hwp_qwp.cpp:4-8 | with both angles 0 and an even cosine, the two outputs are equal |

## Left out

- The fiber integrator (`fiber.h`), `main.cpp` and the headers `field.h`, `utility.h` and `module.h` are not part of this model. The `Field` constructors are modelled by their observable effect: a zero-filled, value-filled or copied buffer, with sampling rate 0 and an empty grid when new.
- IEEE double behaviour is not modelled: rounding, NaN, infinities, and the accuracy of the transcendental functions. Samples and parameters are exact reals. `sqrt` of a negative real part is just `Libm.sqrt` of that value.
- `getSamplingRate()` is the `samplingRate` field itself.
- Utility.Gaussian and Utility.Lorentzian state nothing about the sampling rate and grid of their result. The source sets them with `setTimeStep`, which lives in `field.h`, and `field.h` is not part of this model.
- The FFTW plans are not modelled. The forward and backward transforms are function parameters. Only the normalisation the source applies around them is modelled.
- Fields.Field.Divide, Fields.Field.DivideInPlace and Fields.Polarizations.X/Y require a divisor of non-zero magnitude. A zero divisor yields IEEE infinities or NaN, which are not modelled.
- Fields.Field.SetSamplingRate requires a non-empty field. For n = 0, the first loop of setSamplingRate (src/core/field.cpp:132-133) still runs for i = 0 and writes `omega[0]` of an empty vector.
- Fields.Field.AveragePower requires a non-empty field, because it divides by the size.
- Fields.Field.Dt requires a non-zero sampling rate. Fields.Field.Df and Fields.Field.Dw require a non-empty field.
- Fields.Field.Chomp requires atBegin + atEnd <= n. Beyond that, the unsigned size computation wraps around. The source does not check this bound. With atBegin + atEnd == n it returns an empty field rather than failing.
- Fields.Convolution requires at least one sample in total. With two empty fields the unsigned length |x| + |y| - 1 wraps around.
- Fields.Field.ScaleInPlace and Fields.Field.DivideInPlace take the constant by value. The source takes it as `const Complex&` (src/core/field.cpp:86,121). So `f *= f[0]`, where later samples are scaled by the already-updated f[0], is not captured.
- Fields.Field.Fft, Fields.Field.FftInPlace and Fields.Field.SpectralPower require a non-empty field. FFTW rejects a transform of size 0, and the normalisation divides by n.
- Fields.Field.FftShift: the code does not require an even length. An odd length leaves the last sample in place, as modelled.
- Utility.SechPulse requires n >= 2 and a non-zero width. With n = 1 the time coordinate is 0/0. It also requires cosh >= 1, so that 1/cosh is defined.
- Utility.Gaussian and Utility.Lorentzian require a non-zero fwhm, because they divide by it. They also require n >= 0, since a negative count cannot size a Field.
- WavePlates.HwpQwp.Execute replaces the two component references with fresh Fields. This models the value assignment `signal->right = ...` of the source. The in-place reuse of the old buffers is not modelled.
- `hwp_qwp.h` disagrees with the .cpp file, and the model follows the .cpp:
  - the header names the angle members `psi` and `xi`;
  - the header does not declare `change_psi` or `change_chi`;
  - its comment gives `e^(i psi)` for the left output, while the code uses `i_exp(-psi_)`.
- The `Module` base class, `name`'s use by the caller, and the executor queue are not part of this model.
- The invariant that the two components of a `Polarizations` have equal length and sampling rate is not enforced by the source, so it is not a class invariant here. `Valid()` only demands distinct buffers. `Execute` produces components of equal length and rate.
