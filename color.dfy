/** Colours and their conversion to 8-bit channel values: averaging over the samples,
    gamma 2 through the square root, clamping, and truncation to an integer. */
module Colors {
  import opened Vectors

  type Color = Vec3

  /** An 8-bit channel value (`u8`). */
  newtype byte = x: int | 0 <= x < 256

  /** The largest value a gamma-corrected channel is clamped to before scaling by 256. */
  const ChannelCeiling: real := 0.999

  /** `clamp(x, min, max)`: below `min` gives `min`, above `max` gives `max`,
      anything else is returned as it is. */
  function Clamp(x: real, min: real, max: real): (r: real)
    ensures min <= max ==> min <= r <= max
    ensures min <= x <= max ==> r == x
    ensures x < min ==> r == min
    ensures min <= max < x ==> r == max
  {
    if x < min then min
    else if x > max then max
    else x
  }

  /** Clamping twice is clamping once. */
  lemma ClampIdempotent(x: real, min: real, max: real)
    requires min <= max
    ensures Clamp(Clamp(x, min, max), min, max) == Clamp(x, min, max)
  {
  }

  /** Clamping preserves order. */
  lemma ClampMonotone(x: real, y: real, min: real, max: real)
    requires min <= max && x <= y
    ensures Clamp(x, min, max) <= Clamp(y, min, max)
  {
  }

  /** The integer a channel of an accumulated colour becomes, for `samples` samples.
      The sum is scaled by `1 / samples`, its square root is clamped to
      [0, 0.999], multiplied by 256 and truncated. Under IEEE arithmetic a negative
      scaled value has a NaN square root, which passes `clamp` and truncates to 0;
      with no samples the scale is +infinity, so a positive sum saturates at 255
      and a zero or negative one gives NaN and hence 0. */
  function Quantise(c: real, samples: int, sqrt: real -> real): (q: int)
    requires IsSqrt(sqrt)
    ensures 0 <= q <= 255
  {
    if samples == 0 then
      (if c > 0.0 then 255 else 0)
    else
      var scaled := Average(c, samples);
      if scaled < 0.0 then 0
      else
        var g := Clamp(sqrt(scaled), 0.0, ChannelCeiling);
        assert 0.0 <= 256.0 * g <= 256.0 * ChannelCeiling;
        (256.0 * g).Floor
  }

  /** The sum of `samples` samples scaled by `1 / samples`. */
  function Average(c: real, samples: int): real
    requires samples != 0
  {
    c * (1.0 / samples as real)
  }

  /** Averaging over a positive number of samples preserves order. */
  lemma AverageMonotone(c: real, d: real, samples: int)
    requires samples > 0 && c <= d
    ensures Average(c, samples) <= Average(d, samples)
  {
    ScaleMonotone(c, d, 1.0 / samples as real);
  }

  /** A zero channel is black whatever the sample count. */
  lemma QuantiseZero(samples: int, sqrt: real -> real)
    requires IsSqrt(sqrt)
    ensures Quantise(0.0, samples, sqrt) == 0
  {
    if samples != 0 {
      var s := sqrt(0.0);
      SquareInjective(s, 0.0);
    }
  }

  /** With a positive sample count the channel value never decreases as the
      accumulated colour grows. */
  lemma QuantiseMonotone(c: real, d: real, samples: int, sqrt: real -> real)
    requires IsSqrt(sqrt) && samples > 0 && c <= d
    ensures Quantise(c, samples, sqrt) <= Quantise(d, samples, sqrt)
  {
    AverageMonotone(c, d, samples);
    var sc, sd := Average(c, samples), Average(d, samples);
    if sc >= 0.0 {
      SqrtMonotone(sqrt, sc, sd);
      ClampMonotone(sqrt(sc), sqrt(sd), 0.0, ChannelCeiling);
    }
  }

  lemma ScaleMonotone(c: real, d: real, k: real)
    requires c <= d && k > 0.0
    ensures c * k <= d * k
  {
    assert d * k - c * k == (d - c) * k;
    if c < d { MulPositive(d - c, k); }
  }

  /** Once the averaged value reaches 1 the channel saturates at 255. */
  lemma QuantiseSaturates(c: real, samples: int, sqrt: real -> real)
    requires IsSqrt(sqrt) && samples != 0 && Average(c, samples) >= 1.0
    ensures Quantise(c, samples, sqrt) == 255
  {
    var s := Average(c, samples);
    SqrtMonotone(sqrt, 1.0, s);
    var one := sqrt(1.0);
    SquareInjective(one, 1.0);
  }

  /** The averaging scale is applied before the square root: quantising a sum over
      `samples` samples is quantising its mean as a single sample. */
  lemma QuantiseAverages(c: real, samples: int, sqrt: real -> real)
    requires IsSqrt(sqrt) && samples != 0
    ensures Quantise(c, samples, sqrt) == Quantise(c / samples as real, 1, sqrt)
  {
    var mean := c / samples as real;
    assert Average(c, samples) == mean;
    assert Average(mean, 1) == mean;
  }

  /** `write_color`: the three integers printed for a pixel whose colour is the sum
      of `samples` samples. */
  method WriteColor(pixel: Color, samples: int, sqrt: real -> real) returns (r: int, g: int, b: int)
    requires IsSqrt(sqrt)
    ensures r == Quantise(pixel.x, samples, sqrt)
    ensures g == Quantise(pixel.y, samples, sqrt)
    ensures b == Quantise(pixel.z, samples, sqrt)
    ensures 0 <= r <= 255 && 0 <= g <= 255 && 0 <= b <= 255
  {
    r := Quantise(pixel.x, samples, sqrt);
    g := Quantise(pixel.y, samples, sqrt);
    b := Quantise(pixel.z, samples, sqrt);
  }
}
