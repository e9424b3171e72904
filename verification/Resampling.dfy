/** Linear resampling (internal/pipeline/resampler.go), over exact rationals instead of floats. */
module Resampling {
  import opened Framing

  /** Conversion of the quotient num / den to an integer, towards zero. */
  function Truncate(num: int, den: int): int
    requires den > 0
  {
    if num >= 0 then num / den else -((-num) / den)
  }

  /** The input index at or before output sample i, and how far behind it i lies, in parts of outRate. */
  function Low(i: nat, inRate: nat, outRate: nat): nat
    requires outRate > 0
  {
    i * inRate / outRate
  }

  function Weight(i: nat, inRate: nat, outRate: nat): nat
    requires outRate > 0
  {
    i * inRate % outRate
  }

  function OutLength(n: nat, inRate: nat, outRate: nat): nat
    requires inRate > 0
  {
    n * outRate / inRate
  }

  function Blend(a: int, b: int, weight: nat, outRate: nat): int
    requires outRate > 0
  {
    Truncate(a * (outRate - weight) + b * weight, outRate)
  }

  /** Output sample i. */
  function At(input: seq<Sample>, inRate: nat, outRate: nat, i: nat): (s: Sample)
    requires inRate > 0 && outRate > 0 && i < OutLength(|input|, inRate, outRate)
  {
    LowInBounds(|input|, inRate, outRate, i);
    var low := Low(i, inRate, outRate);
    if low + 1 >= |input| then input[low]
    else
      BlendIsBetween(input[low], input[low + 1], Weight(i, inRate, outRate), outRate);
      Blend(input[low], input[low + 1], Weight(i, inRate, outRate), outRate)
  }

  /** ResampleMonoPCM for positive rates; at equal rates it copies. */
  method ResampleMonoPCM(input: seq<Sample>, inRate: nat, outRate: nat) returns (output: seq<Sample>)
    requires inRate > 0 && outRate > 0
    ensures inRate == outRate ==> output == input
    ensures |output| == OutLength(|input|, inRate, outRate)
    ensures forall i :: 0 <= i < |output| ==> output[i] == At(input, inRate, outRate, i)
  {
    if inRate == outRate {
      EqualRates(input, inRate);
      return input;
    }
    if |input| == 0 {
      return [];
    }
    var outLen := |input| * outRate / inRate;
    var buffer := new Sample[outLen](_ => 0);
    for i := 0 to outLen
      invariant forall k :: 0 <= k < i ==> buffer[k] == At(input, inRate, outRate, k)
    {
      var low := i * inRate / outRate;
      var high := low + 1;
      var weight := i * inRate % outRate;
      LowInBounds(|input|, inRate, outRate, i);
      if high >= |input| {
        buffer[i] := input[low];
      } else {
        BlendIsBetween(input[low], input[high], weight, outRate);
        buffer[i] := Truncate(input[low] * (outRate - weight) + input[high] * weight, outRate);
      }
    }
    output := buffer[..];
  }

  // ---------------------------------------------------------------- arithmetic

  lemma QuotientBelow(a: int, b: int, c: int)
    requires b > 0 && a < b * c
    ensures a / b < c
  {
    assert a == b * (a / b) + a % b;
  }

  lemma QuotientAbove(a: int, b: int, c: int)
    requires b > 0 && a >= b * c
    ensures a / b >= c
  {
    var q := a / b;
    assert a == b * q + a % b;
    Product(c - q - 1, b);
    assert (c - q - 1) * b == c * b - q * b - b;
  }

  lemma QuotientGrows(a: int, a': int, b: int)
    requires b > 0 && a <= a'
    ensures a / b <= a' / b
  {
    assert a == b * (a / b) + a % b;
    QuotientAbove(a', b, a / b);
  }

  lemma TruncateGrows(a: int, a': int, den: int)
    requires den > 0 && a <= a'
    ensures Truncate(a, den) <= Truncate(a', den)
  {
    if a >= 0 {
      QuotientGrows(a, a', den);
    } else if a' < 0 {
      QuotientGrows(-a', -a, den);
    } else {
      QuotientAbove(-a, den, 0);
      QuotientAbove(a', den, 0);
    }
  }

  lemma TruncateExact(c: int, den: int)
    requires den > 0
    ensures Truncate(c * den, den) == c
  {
    if c >= 0 {
      QuotientAbove(c * den, den, c);
      QuotientBelow(c * den, den, c + 1);
      assert c * den >= 0;
    } else {
      assert c * den < 0;
      assert -(c * den) == -c * den;
      QuotientAbove(-c * den, den, -c);
      QuotientBelow(-c * den, den, -c + 1);
    }
  }

  /** Reading never leaves the input. */
  lemma LowInBounds(n: nat, inRate: nat, outRate: nat, i: nat)
    requires inRate > 0 && outRate > 0 && i < OutLength(n, inRate, outRate)
    ensures Low(i, inRate, outRate) < n
  {
    var whole := n * outRate;
    var q := whole / inRate;
    assert whole == inRate * q + whole % inRate;
    Product(q - i - 1, inRate);
    assert (q - i - 1) * inRate == inRate * q - i * inRate - inRate;
    assert i * inRate < outRate * n;
    QuotientBelow(i * inRate, outRate, n);
  }

  lemma BlendNumerator(a: int, b: int, weight: nat, outRate: nat)
    requires weight < outRate
    ensures var num := a * (outRate - weight) + b * weight;
            && num == a * outRate + (b - a) * weight
            && num == b * outRate + (a - b) * (outRate - weight)
  {
    assert (b - a) * weight == b * weight - a * weight;
    assert (a - b) * (outRate - weight) == a * (outRate - weight) - b * (outRate - weight);
    assert b * (outRate - weight) == b * outRate - b * weight;
    assert a * (outRate - weight) == a * outRate - a * weight;
  }

  lemma Product(a: int, b: int)
    ensures a >= 0 && b >= 0 ==> a * b >= 0
    ensures a <= 0 && b >= 0 ==> a * b <= 0
  {
  }

  /** An interpolated sample lies between its neighbours, truncation included. */
  lemma BlendIsBetween(a: int, b: int, weight: nat, outRate: nat)
    requires weight < outRate
    ensures a <= b ==> a <= Blend(a, b, weight, outRate) <= b
    ensures b <= a ==> b <= Blend(a, b, weight, outRate) <= a
  {
    hide Truncate;
    var num := a * (outRate - weight) + b * weight;
    BlendNumerator(a, b, weight, outRate);
    Product(b - a, weight);
    Product(a - b, outRate - weight);
    TruncateExact(a, outRate);
    TruncateExact(b, outRate);
    if a <= b {
      TruncateGrows(a * outRate, num, outRate);
      TruncateGrows(num, b * outRate, outRate);
    }
    if b <= a {
      TruncateGrows(b * outRate, num, outRate);
      TruncateGrows(num, a * outRate, outRate);
    }
  }

  lemma EqualRates(input: seq<Sample>, rate: nat)
    requires rate > 0
    ensures OutLength(|input|, rate, rate) == |input|
    ensures forall i :: 0 <= i < |input| ==> At(input, rate, rate, i) == input[i]
  {
    hide At;
    MultipleRate(input, rate, 1);
    assert rate * 1 == rate;
    forall i | 0 <= i < |input|
      ensures At(input, rate, rate, i) == input[i]
    {
      assert 1 * i == i;
      assert At(input, rate, rate * 1, 1 * i) == input[i];
    }
  }

  // ---------------------------------------------------------------- laws

  /** Truncation loses less than one. */
  lemma TruncateIsNear(num: int, den: int)
    requires den > 0
    ensures -den < Truncate(num, den) * den - num < den
  {
    var x := if num >= 0 then num else -num;
    assert x == den * (x / den) + x % den;
    assert num < 0 ==> Truncate(num, den) * den == -(x / den * den);
  }

  /**
   * Every output sample is the value that the straight line through the two input samples around it
   * has at its place, to within less than one step: output sample i lies at i * inRate / outRate, and
   * behind the last input sample the line is level.
   */
  lemma OnTheLine(input: seq<Sample>, inRate: nat, outRate: nat, i: nat)
    requires inRate > 0 && outRate > 0 && i < OutLength(|input|, inRate, outRate)
    ensures var low := i * inRate / outRate;
            && low < |input| && low * outRate <= i * inRate < (low + 1) * outRate
            && var a, b := input[low], input[if low + 1 < |input| then low + 1 else low];
               var line := a * outRate + (b - a) * (i * inRate - low * outRate);
               var off := At(input, inRate, outRate, i) * outRate - line;
            off < outRate && -off < outRate
  {
    hide Truncate;
    LowInBounds(|input|, inRate, outRate, i);
    var low, weight := Low(i, inRate, outRate), Weight(i, inRate, outRate);
    assert i * inRate == outRate * low + weight;
    if low + 1 < |input| {
      var a, b := input[low], input[low + 1];
      BlendNumerator(a, b, weight, outRate);
      TruncateIsNear(a * (outRate - weight) + b * weight, outRate);
    }
  }

  /** The output is as long as the rates say, rounded down. */
  lemma LengthExactly(n: nat, inRate: nat, outRate: nat)
    requires inRate > 0
    ensures OutLength(n, inRate, outRate) * inRate <= n * outRate < (OutLength(n, inRate, outRate) + 1) * inRate
  {
    assert n * outRate == inRate * (n * outRate / inRate) + n * outRate % inRate;
  }

  /** At a multiple of the input rate every k-th output sample is an input sample, unchanged. */
  lemma MultipleRate(input: seq<Sample>, inRate: nat, k: nat)
    requires inRate > 0 && k > 0
    ensures inRate * k > 0 && OutLength(|input|, inRate, inRate * k) == |input| * k
    ensures forall i :: 0 <= i < |input| ==>
              k * i < |input| * k && At(input, inRate, inRate * k, k * i) == input[i]
  {
    var outRate := inRate * k;
    assert outRate > 0;
    ProductQuotient(|input| * k, inRate);
    assert |input| * outRate == |input| * k * inRate;
    forall i | 0 <= i < |input|
      ensures k * i < |input| * k && At(input, inRate, outRate, k * i) == input[i]
    {
      assert k * (i + 1) <= k * |input|;
      assert k * i * inRate == i * outRate;
      ProductQuotient(i, outRate);
      TruncateExact(input[i], outRate);
    }
  }

  lemma ProductQuotient(q: nat, d: nat)
    requires d > 0
    ensures q * d / d == q && q * d % d == 0
  {
    QuotientAbove(q * d, d, q);
    QuotientBelow(q * d, d, q + 1);
    assert q * d == d * (q * d / d) + q * d % d;
  }

  predicate Ascending(s: seq<Sample>) {
    forall a, b :: 0 <= a <= b < |s| ==> s[a] <= s[b]
  }

  /** Rising input gives rising output: interpolation adds no ripples. */
  lemma ResamplingIsMonotone(input: seq<Sample>, inRate: nat, outRate: nat, i: nat, j: nat)
    requires inRate > 0 && outRate > 0 && Ascending(input)
    requires i <= j < OutLength(|input|, inRate, outRate)
    ensures At(input, inRate, outRate, i) <= At(input, inRate, outRate, j)
  {
    LowInBounds(|input|, inRate, outRate, i);
    LowInBounds(|input|, inRate, outRate, j);
    var li, lj := Low(i, inRate, outRate), Low(j, inRate, outRate);
    assert i * inRate <= j * inRate;
    QuotientGrows(i * inRate, j * inRate, outRate);
    if li < lj {
      BlendIsBetween(input[li], input[li + 1], Weight(i, inRate, outRate), outRate);
      if lj + 1 < |input| {
        BlendIsBetween(input[lj], input[lj + 1], Weight(j, inRate, outRate), outRate);
      }
    } else if li + 1 < |input| {
      WeightGrows(input[li], input[li + 1], i, j, inRate, outRate);
    }
  }

  lemma BlendGrows(a: int, b: int, wi: nat, wj: nat, outRate: nat)
    requires a <= b && wi <= wj < outRate
    ensures Blend(a, b, wi, outRate) <= Blend(a, b, wj, outRate)
  {
    hide Truncate;
    BlendNumerator(a, b, wi, outRate);
    BlendNumerator(a, b, wj, outRate);
    Product(b - a, wj - wi);
    assert (b - a) * (wj - wi) == (b - a) * wj - (b - a) * wi;
    TruncateGrows(a * (outRate - wi) + b * wi, a * (outRate - wj) + b * wj, outRate);
  }

  lemma RemainderGrows(x: nat, y: nat, d: nat)
    requires d > 0 && x <= y && x / d == y / d
    ensures x % d <= y % d < d
  {
    assert x == d * (x / d) + x % d;
    assert y == d * (y / d) + y % d;
  }

  lemma WeightGrows(a: int, b: int, i: nat, j: nat, inRate: nat, outRate: nat)
    requires outRate > 0 && a <= b && i * inRate <= j * inRate
    requires Low(i, inRate, outRate) == Low(j, inRate, outRate)
    ensures Blend(a, b, Weight(i, inRate, outRate), outRate) <= Blend(a, b, Weight(j, inRate, outRate), outRate)
  {
    hide Blend;
    RemainderGrows(i * inRate, j * inRate, outRate);
    BlendGrows(a, b, Weight(i, inRate, outRate), Weight(j, inRate, outRate), outRate);
  }
}
