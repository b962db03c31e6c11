/** Candidate weights from quantised scores, over an abstract scaled exponential. */
module Weights {
  import opened Wrappers
  import opened Errors
  import opened Rounding

  const LOGIT_SCALE := 1024
  const WEIGHT_SCALE := 0x100_0000

  /**
   What is used of the scaled exponential: `scaled(n, d)` is the decimal number the source computes for
   e^(n / d) * 2^24, each of its three operations rounded to 50 digits. Rounding keeps order, and at zero
   nothing is rounded.
   */
  ghost predicate KeepsOrder(scaled: (int, int) -> real) {
    forall d: nat | 0 < d ::
      && scaled(0, d) == WEIGHT_SCALE as real
      && forall m: int, n: int :: m <= n ==> scaled(m, d) <= scaled(n, d)
  }

  function Maximum(scores: seq<int>): (m: int)
    requires scores != []
    ensures m in scores && forall i | 0 <= i < |scores| :: scores[i] <= m
  {
    if |scores| == 1 then scores[0] else
      var rest := Maximum(scores[1..]);
      assert forall i | 1 <= i < |scores| :: scores[i] == scores[1..][i - 1];
      if rest < scores[0] then scores[0] else rest
  }

  function WeightOf(scaled: (int, int) -> real, score: int, maximum: int, temperatureMilli: int): int {
    var weight := RoundHalfEven(scaled((score - maximum) * 1000, LOGIT_SCALE * temperatureMilli));
    if 1 < weight then weight else 1
  }

  /** Temperatures outside 100..2000 and empty scores fail; otherwise one weight a score. */
  method DeterministicWeights(scaled: (int, int) -> real, scores: seq<int>, temperatureMilli: int) returns (r: Result<seq<int>, Error>)
    ensures r.Success? <==> scores != [] && 100 <= temperatureMilli <= 2000
    ensures r.Failure? ==> r.error == ValueError
    ensures r.Success? ==> |r.value| == |scores|
    ensures r.Success? ==> forall i | 0 <= i < |scores| ::
      r.value[i] == WeightOf(scaled, scores[i], Maximum(scores), temperatureMilli)
    ensures r.Success? ==> forall i | 0 <= i < |scores| ::
      var weight := RoundHalfEven(scaled(1000 * (scores[i] - Maximum(scores)), 1024 * temperatureMilli));
      r.value[i] == if weight < 1 then 1 else weight
  {
    if scores == [] || !(100 <= temperatureMilli <= 2000) {
      return Failure(ValueError);
    }
    var maximum := Maximum(scores);
    var weights := [];
    for k := 0 to |scores|
      invariant |weights| == k
      invariant forall i | 0 <= i < k :: weights[i] == WeightOf(scaled, scores[i], maximum, temperatureMilli)
    {
      weights := weights + [WeightOf(scaled, scores[k], maximum, temperatureMilli)];
    }
    r := Success(weights);
  }

  /** Weights are positive, the best score weighs 2^24, and no better score weighs less. */
  lemma WeightOrder(scaled: (int, int) -> real, maximum: int, temperatureMilli: int, low: int, high: int)
    requires KeepsOrder(scaled) && 0 < temperatureMilli && low <= high
    ensures 1 <= WeightOf(scaled, low, maximum, temperatureMilli) <= WeightOf(scaled, high, maximum, temperatureMilli)
    ensures WeightOf(scaled, maximum, maximum, temperatureMilli) == WEIGHT_SCALE
  {
    var d := LOGIT_SCALE * temperatureMilli;
    RoundingMonotone(scaled((low - maximum) * 1000, d), scaled((high - maximum) * 1000, d));
    RoundingMonotone(scaled(0, d), scaled(0, d));
  }

  /** The decimal exponential depends on nothing but the ratio: the quotient is rounded from the exact one. */
  ghost predicate OfRatio(scaled: (int, int) -> real, exponential: real -> real) {
    forall n: int, d: int | 0 < d :: scaled(n, d) == exponential(n as real / d as real)
  }

  /** A weight is that of the exponent 1000(score - maximum) / (1024 T), rounded half to even, and at least one. */
  lemma WeightOfExponent(scaled: (int, int) -> real, exponential: real -> real, score: int, maximum: int, temperatureMilli: int)
    requires OfRatio(scaled, exponential) && 0 < temperatureMilli
    ensures var weight := WeightOf(scaled, score, maximum, temperatureMilli);
      var exact := exponential((1000 * (score - maximum)) as real / (1024 * temperatureMilli) as real);
      && 1 <= weight
      && (1.5 < exact ==> -0.5 <= weight as real - exact <= 0.5)
      && (1.5 < exact && (weight as real - exact == 0.5 || weight as real - exact == -0.5) ==> weight % 2 == 0)
      && (exact <= 1.5 ==> weight == if exact == 1.5 then 2 else 1)
  {
    var exact := scaled((score - maximum) * 1000, 1024 * temperatureMilli);
    assert exact == exponential((1000 * (score - maximum)) as real / (1024 * temperatureMilli) as real);
    RoundingMonotone(exact, exact);
  }

  /** Temperature divides gaps: a gap at one temperature weighs as `k` times the gap does at `k` times the temperature. */
  lemma TemperatureScales(scaled: (int, int) -> real, exponential: real -> real, maximum: int, gap: int, temperatureMilli: int,
                          other: int, k: int)
    requires OfRatio(scaled, exponential) && 0 < temperatureMilli && 0 < k
    ensures WeightOf(scaled, maximum - gap, maximum, temperatureMilli) == WeightOf(scaled, other - k * gap, other, k * temperatureMilli)
  {
    var n, d := -1000 * gap, 1024 * temperatureMilli;
    ScaledPositive(k, temperatureMilli);
    assert (other - k * gap - other) * 1000 == k * n && LOGIT_SCALE * (k * temperatureMilli) == k * d;
    RatioScales(n, d, k);
    assert scaled(n, d) == exponential(n as real / d as real);
    assert scaled(k * n, k * d) == exponential((k * n) as real / (k * d) as real);
  }

  lemma ScaledPositive(k: int, t: int)
    requires 0 < k && 0 < t
    ensures 0 < k * t && 0 < k * (1024 * t) && 1024 * (k * t) == k * (1024 * t)
  {
  }

  lemma RatioScales(n: int, d: int, k: int)
    requires 0 < d && 0 < k && 0 < k * d
    ensures (k * n) as real / (k * d) as real == n as real / d as real
  {
    var x, y, z := n as real, d as real, k as real;
    assert (k * n) as real == z * x && (k * d) as real == z * y;
    assert x == (x / y) * y;
    assert z * x == (x / y) * (z * y);
  }
}
