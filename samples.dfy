/**
 * The integer stage of recordAudio: every 16-bit sample of the I2S buffer is
 * multiplied by the gain 18, clamped to the int16 range and written back,
 * while the largest absolute clamped value is tracked for normalisation.
 *
 * The firmware multiplies by the float 18.0f; for an int16 sample the
 * product has magnitude at most 32768 * 18 = 589824 < 2^24, so it is exact in
 * single precision and its conversion to int32 is the integer product.
 */
module Samples {

  const INT16_MIN: int := -32768
  const INT16_MAX: int := 32767
  const GAIN: int := 18

  predicate IsInt16(x: int) {
    INT16_MIN <= x <= INT16_MAX
  }

  /** `int16_t`, the element type of the sample buffer. */
  type int16 = x: int | -32768 <= x <= 32767

  function Abs(x: int): nat {
    if x < 0 then -x else x
  }

  /** The two guards of the clipping step: above INT16_MAX, below INT16_MIN. */
  function Clamp(x: int): (r: int)
    ensures IsInt16(r)
    ensures IsInt16(x) ==> r == x
  {
    if x > INT16_MAX then INT16_MAX else if x < INT16_MIN then INT16_MIN else x
  }

  /** One sample after the gain and the clamp. */
  function Amplify(x: int): (r: int)
    ensures IsInt16(r)
    ensures -1820 <= x <= 1820 ==> r == 18 * x
  {
    Clamp(x * GAIN)
  }

  /** The buffer after the gain loop. */
  function AmplifyAll(s: seq<int>): (r: seq<int>)
    ensures |r| == |s|
  {
    if s == [] then [] else AmplifyAll(s[..|s| - 1]) + [Amplify(s[|s| - 1])]
  }

  /** maxSample after the loop: 0 for an empty buffer, else the largest |x|. */
  function Peak(s: seq<int>): nat {
    if s == [] then 0
    else
      var p := Peak(s[..|s| - 1]);
      if Abs(s[|s| - 1]) > p then Abs(s[|s| - 1]) else p
  }

  /** Each amplified sample is the exact product when that fits in int16, and saturates otherwise. */
  lemma AmplifySaturates(x: int)
    ensures IsInt16(Amplify(x))
    ensures -1820 <= x <= 1820 ==> Amplify(x) == 18 * x
    ensures x > 1820 ==> Amplify(x) == INT16_MAX
    ensures x < -1820 ==> Amplify(x) == INT16_MIN
  {
  }

  lemma {:induction false} AmplifyAllAt(s: seq<int>, i: nat)
    requires i < |s|
    ensures AmplifyAll(s)[i] == Amplify(s[i])
    decreases |s|
  {
    if i < |s| - 1 {
      assert s[..|s| - 1][i] == s[i];
      AmplifyAllAt(s[..|s| - 1], i);
    }
  }

  /** Peak is the maximum of the absolute values, and 0 only when every value is 0. */
  lemma {:induction false} PeakIsMaximum(s: seq<int>)
    ensures forall i :: 0 <= i < |s| ==> Abs(s[i]) <= Peak(s)
    ensures s != [] ==> exists i :: 0 <= i < |s| && Abs(s[i]) == Peak(s)
    ensures Peak(s) == 0 <==> forall i :: 0 <= i < |s| ==> s[i] == 0
    decreases |s|
  {
    if s != [] {
      var init := s[..|s| - 1];
      PeakIsMaximum(init);
      assert forall i :: 0 <= i < |init| ==> init[i] == s[i];
      if init != [] && Abs(s[|s| - 1]) <= Peak(init) {
        var j :| 0 <= j < |init| && Abs(init[j]) == Peak(init);
        assert Abs(s[j]) == Peak(s);
      }
    }
  }

  /**
   * The clamp loop of recordAudio over the first n samples of the buffer:
   * they are replaced by their amplified values, the rest are untouched, and
   * maxSample is the peak of what was written.
   */
  method AmplifyInPlace(samples: array<int16>, n: nat) returns (maxSample: int)
    requires n <= samples.Length
    modifies samples
    ensures samples[..n] == AmplifyAll(old(samples[..n]))
    ensures samples[n..] == old(samples[n..])
    ensures maxSample == Peak(samples[..n])
  {
    ghost var input := samples[..];
    maxSample := 0;
    var i := 0;
    while i < n
      invariant 0 <= i <= n
      invariant samples[..i] == AmplifyAll(input[..i])
      invariant samples[i..] == input[i..]
      invariant maxSample == Peak(samples[..i])
    {
      var x := samples[i];
      var sample := x * GAIN;
      if sample > INT16_MAX {
        sample := INT16_MAX;
      } else if sample < INT16_MIN {
        sample := INT16_MIN;
      }
      ghost var done := samples[..i];
      AmplifyStep(input, done, i, sample);
      samples[i] := sample;
      assert samples[..i + 1] == done + [sample];
      assert samples[i + 1..] == input[i + 1..];
      if Abs(sample) > maxSample {
        maxSample := Abs(sample);
      }
      i := i + 1;
    }
    assert input[..n] == old(samples[..n]);
    assert input[n..] == old(samples[n..]);
  }

  /** One step of the gain loop: the amplified prefix and its peak grow by the new sample. */
  lemma AmplifyStep(input: seq<int>, done: seq<int>, i: nat, sample: int)
    requires i < |input| && done == AmplifyAll(input[..i]) && sample == Amplify(input[i])
    ensures done + [sample] == AmplifyAll(input[..i + 1])
    ensures Peak(done + [sample]) == if Abs(sample) > Peak(done) then Abs(sample) else Peak(done)
  {
    assert input[..i + 1][..i] == input[..i];
    assert (done + [sample])[..i] == done;
  }

  /** After the loop every processed sample lies in [-32768, 32767] and maxSample is at most 32768. */
  lemma AmplifiedInRange(s: seq<int>)
    ensures forall i :: 0 <= i < |s| ==> IsInt16(AmplifyAll(s)[i])
    ensures Peak(AmplifyAll(s)) <= 32768
  {
    forall i | 0 <= i < |s|
      ensures IsInt16(AmplifyAll(s)[i])
    {
      AmplifyAllAt(s, i);
    }
    PeakIsMaximum(AmplifyAll(s));
  }
}
