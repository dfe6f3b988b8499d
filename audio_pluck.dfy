/**
 * js/audio-pluck.js: the synthetic pluck and sine tone. The audio graph, the
 * carrier and noise waveforms and the reverb are not modelled; what is
 * modelled is how a dot's size becomes the voice's release, gain and pitch,
 * the attack/release envelope applied to every sample, and the sine clamp.
 */
module AudioPluck {
  import opened JsNumbers
  import opened MathUtils

  const PluckSamples: nat := 4096
  const AttackSamples: nat := 24
  const MinReleaseSamples: nat := 420
  const OutputGainScale: real := 0.1
  const SineMinHz: real := 160.0
  const SineMaxHz: real := 880.0
  const SineFallbackHz: real := 440.0

  /** The `{min, max}` range a caller gives for size normalisation. */
  datatype SizeRange = SizeRange(min: real, max: real)

  const DefaultSizeRange := SizeRange(1.0, 10.0)

  /** What the other scripts ask the audio module to play. */
  datatype SoundRequest =
    | PluckRequest(size: real, range: SizeRange)
    | SineRequest(hz: JsNumber)

  /** `sizeToUnit`: a size as a fraction of the range, 0 for a non-finite size. */
  function SizeToUnit(size: JsNumber, minSize: real, maxSize: real): (r: real)
    ensures 0.0 <= r <= 1.0
    ensures !IsFinite(size) ==> r == 0.0
  {
    if !size.Finite? then 0.0
    else Clamp01((size.value - minSize) / Max(0.001, maxSize - minSize))
  }

  /** Sizes at or below the range's minimum give 0, at or above its maximum 1, and bigger sizes never give less. */
  lemma SizeToUnitShape(a: real, b: real, minSize: real, maxSize: real)
    requires a <= b
    ensures SizeToUnit(Finite(a), minSize, maxSize) <= SizeToUnit(Finite(b), minSize, maxSize)
    ensures a <= minSize ==> SizeToUnit(Finite(a), minSize, maxSize) == 0.0
    ensures maxSize - minSize >= 0.001 && b >= maxSize ==> SizeToUnit(Finite(b), minSize, maxSize) == 1.0
  {
    var span := Max(0.001, maxSize - minSize);
    DivMonotone(a - minSize, b - minSize, span);
    if maxSize - minSize >= 0.001 && b >= maxSize {
      DivAtLeastOne(b - minSize, span);
    }
  }

  lemma DivMonotone(x: real, y: real, d: real)
    requires d > 0.0 && x <= y
    ensures x / d <= y / d
  {
  }

  lemma DivAtLeastOne(x: real, d: real)
    requires 0.0 < d <= x
    ensures x / d >= 1.0
  {
  }

  /** The voice `playPluck` builds for one dot. */
  datatype PluckVoice = PluckVoice(releaseSamples: int, gain: real, frequency: real)

  /**
   * The release length, output gain and pitch of a pluck: a bigger dot rings
   * longer, louder and lower.
   */
  function PluckVoiceFor(size: JsNumber, range: SizeRange): (v: PluckVoice)
    ensures MinReleaseSamples <= v.releaseSamples <= PluckSamples - AttackSamples
    ensures 0.006 <= v.gain <= 0.024
    ensures 170.0 <= v.frequency <= 500.0
  {
    var amount := SizeToUnit(size, range.min, range.max);
    var releaseMax := PluckSamples - AttackSamples;
    var release := Round(MinReleaseSamples as real + (releaseMax - MinReleaseSamples) as real * amount);
    assert release <= releaseMax by {
      RoundMonotone(MinReleaseSamples as real + (releaseMax - MinReleaseSamples) as real * amount, releaseMax as real);
    }
    PluckVoice(release, (0.06 + 0.18 * amount) * OutputGainScale, 170.0 + 330.0 * (1.0 - amount))
  }

  /** A bigger dot never gives a shorter, quieter or higher pluck. */
  lemma PluckVoiceMonotone(a: real, b: real, range: SizeRange)
    requires a <= b
    ensures PluckVoiceFor(Finite(a), range).releaseSamples <= PluckVoiceFor(Finite(b), range).releaseSamples
    ensures PluckVoiceFor(Finite(a), range).gain <= PluckVoiceFor(Finite(b), range).gain
    ensures PluckVoiceFor(Finite(b), range).frequency <= PluckVoiceFor(Finite(a), range).frequency
  {
    SizeToUnitShape(a, b, range.min, range.max);
    var ua := SizeToUnit(Finite(a), range.min, range.max);
    var ub := SizeToUnit(Finite(b), range.min, range.max);
    RoundMonotone(420.0 + 3652.0 * ua, 420.0 + 3652.0 * ub);
  }

  /**
   * The envelope of sample `i`: a linear attack over the first
   * `AttackSamples` samples, then a linear release to silence.
   */
  function Envelope(i: nat, releaseSamples: int): (e: real)
    requires releaseSamples >= 1
    ensures 0.0 <= e <= 1.0
  {
    if i < AttackSamples then i as real / AttackSamples as real
    else Max(0.0, 1.0 - (i - AttackSamples) as real / releaseSamples as real)
  }

  /**
   * The envelope starts silent, rises through the attack, peaks at full
   * level where the release begins, never rises again and is silent once
   * the release has run its length.
   */
  lemma EnvelopeShape(i: nat, j: nat, releaseSamples: int)
    requires releaseSamples >= 1 && i <= j
    ensures Envelope(0, releaseSamples) == 0.0 && Envelope(AttackSamples, releaseSamples) == 1.0
    ensures j < AttackSamples ==> Envelope(i, releaseSamples) <= Envelope(j, releaseSamples)
    ensures AttackSamples <= i ==> Envelope(j, releaseSamples) <= Envelope(i, releaseSamples)
    ensures j >= AttackSamples + releaseSamples ==> Envelope(j, releaseSamples) == 0.0
  {
    var r := releaseSamples as real;
    if AttackSamples <= i {
      assert (j - AttackSamples) as real / r - (i - AttackSamples) as real / r == (j - i) as real / r;
    }
    if j >= AttackSamples + releaseSamples {
      assert (j - AttackSamples) as real / r >= 1.0;
    }
  }

  lemma ScaledBound(b: real, e: real)
    requires 0.0 <= e <= 1.0
    ensures Abs(b * e) <= Abs(b)
  {
    if b >= 0.0 {
      MulBetween(b, e);
    } else {
      MulBetween(-b, e);
      NegateProduct(b, e);
    }
  }

  /**
   * The sample loop of `playPluck`: every sample of the pluck buffer is the
   * waveform's sample times the envelope, so no sample is louder than the
   * waveform. The waveform (sine carrier and random noise) is a parameter.
   */
  method FillPluckChannel(data: array<real>, body: seq<real>, releaseSamples: int)
    requires data.Length == PluckSamples && |body| == PluckSamples && releaseSamples >= 1
    modifies data
    ensures forall i :: 0 <= i < PluckSamples ==> data[i] == body[i] * Envelope(i, releaseSamples)
    ensures forall i :: 0 <= i < PluckSamples ==> Abs(data[i]) <= Abs(body[i])
  {
    for i := 0 to PluckSamples
      invariant forall k :: 0 <= k < i ==> data[k] == body[k] * Envelope(k, releaseSamples)
    {
      data[i] := body[i] * Envelope(i, releaseSamples);
    }
    forall i | 0 <= i < PluckSamples ensures Abs(data[i]) <= Abs(body[i]) {
      ScaledBound(body[i], Envelope(i, releaseSamples));
    }
  }

  /** The frequency `playSineTone` uses: 440 Hz for a non-finite request, otherwise the request clamped to 160..880 Hz. */
  function SineFrequency(hz: JsNumber): (r: real)
    ensures SineMinHz <= r <= SineMaxHz
    ensures hz.Finite? && SineMinHz <= hz.value <= SineMaxHz ==> r == hz.value
    ensures !hz.Finite? ==> r == SineFallbackHz
    ensures hz.Finite? && hz.value < SineMinHz ==> r == SineMinHz
    ensures hz.Finite? && hz.value > SineMaxHz ==> r == SineMaxHz
  {
    Clamp(if hz.Finite? then hz.value else SineFallbackHz, SineMinHz, SineMaxHz)
  }
}
