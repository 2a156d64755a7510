/** The differential-privacy aggregator (`DifferentialPrivacyAggregator`):
    counts get Laplace noise scaled by `1 / max(epsilon, 0.001)`, are rounded
    half to even and clamped at zero. Only the structure is modelled: the
    noise is an input (the i-th standard Laplace draw, one per key in order),
    and arithmetic is on reals, not floats. */
module Privacy {
  import opened Wrappers
  import opened Dicts

  /** `PrivacyConfig`: the budget, the failure probability, the (unused)
      aggregation window and the switch. */
  datatype PrivacyConfig = PrivacyConfig(epsilon: real, delta: real, windowSeconds: int, enableDp: bool)

  const DefaultPrivacy: PrivacyConfig := PrivacyConfig(1.0, 0.00001, 300, true)

  /** The smallest epsilon used. */
  const EpsilonFloor: real := 0.001

  /** The Laplace scale: sensitivity 1 over the floored epsilon. */
  function Scale(epsilon: real): (s: real)
    ensures 0.0 < s <= 1000.0
    ensures epsilon >= EpsilonFloor ==> s * epsilon == 1.0
    ensures epsilon <= EpsilonFloor ==> s == 1000.0
  {
    1.0 / (if epsilon > EpsilonFloor then epsilon else EpsilonFloor)
  }

  /** Python's `round` on a number: to the nearest integer, ties to the
      even one. */
  function RoundHalfEven(x: real): (r: int)
    ensures -0.5 <= x - r as real <= 0.5
    ensures (x - r as real == 0.5 || x - r as real == -0.5) ==> r % 2 == 0
  {
    var f := x.Floor;
    var d := x - f as real;
    if d < 0.5 then f
    else if d > 0.5 then f + 1
    else if f % 2 == 0 then f else f + 1
  }

  /** The two properties of `RoundHalfEven` pin the result down. */
  lemma RoundHalfEvenUnique(x: real, n: int)
    requires -0.5 <= x - n as real <= 0.5
    requires (x - n as real == 0.5 || x - n as real == -0.5) ==> n % 2 == 0
    ensures n == RoundHalfEven(x)
  {
  }

  /** One noised count: `max(0, int(round(value + noise)))`. */
  function Perturb(value: int, noise: real): (r: int)
    ensures r >= 0 && r >= RoundHalfEven(value as real + noise)
    ensures r == 0 || r == RoundHalfEven(value as real + noise)
    ensures noise == 0.0 ==> r == if value > 0 then value else 0
  {
    var n := RoundHalfEven(value as real + noise);
    if n > 0 then n else 0
  }

  /** The noise source of `aggregate_counts`: the Laplace scale and
      `unit(i)`, the i-th standard Laplace draw. */
  datatype Noise = Noise(scale: real, unit: nat -> real)

  function NoiseOf(config: PrivacyConfig, unit: nat -> real): Noise
  {
    Noise(Scale(config.epsilon), unit)
  }

  /** The i-th key's count after noising: the count plus its scaled draw,
      rounded, and never below zero. */
  function Noised(noise: Noise, i: nat, v: int): (r: int)
    ensures r >= 0 && r >= RoundHalfEven(v as real + noise.scale * noise.unit(i))
    ensures r == 0 || r == RoundHalfEven(v as real + noise.scale * noise.unit(i))
  {
    Perturb(v, noise.scale * noise.unit(i))
  }

  /** The loop of `aggregate_counts` from the `i`-th key on: each key gets its
      noised count, assigned into `acc`. */
  function NoiseFrom(counts: Entries<int>, noise: Noise, i: nat, acc: Entries<int>): Entries<int>
    requires i <= |counts|
    decreases |counts| - i
  {
    if i == |counts| then acc
    else NoiseFrom(counts, noise, i + 1, Put(acc, counts[i].key, Noised(noise, i, counts[i].value)))
  }

  /** `aggregate_counts`: the counts themselves when DP is off, else the
      noised counts. */
  function AggregateCounts(config: PrivacyConfig, counts: Entries<int>, unit: nat -> real): (r: Entries<int>)
    ensures !config.enableDp ==> r == counts
  {
    if !config.enableDp then counts else NoiseFrom(counts, NoiseOf(config, unit), 0, [])
  }

  /** Reference: each entry of the dict with its count noised. */
  function Perturbed(counts: Entries<int>, noise: Noise): (r: Entries<int>)
    ensures |r| == |counts|
    ensures forall i :: 0 <= i < |counts| ==> r[i] == Entry(counts[i].key, Noised(noise, i, counts[i].value))
  {
    seq(|counts|, i requires 0 <= i < |counts| => Entry(counts[i].key, Noised(noise, i, counts[i].value)))
  }

  lemma {:induction false} NoiseFromPerturbed(counts: Entries<int>, noise: Noise, i: nat)
    requires DistinctKeys(counts) && i <= |counts|
    ensures NoiseFrom(counts, noise, i, Perturbed(counts, noise)[..i]) == Perturbed(counts, noise)
    decreases |counts| - i
  {
    var p := Perturbed(counts, noise);
    if i < |counts| {
      forall j | 0 <= j < i ensures p[..i][j].key != counts[i].key {
        assert p[..i][j] == p[j];
      }
      PutAbsent(p[..i], counts[i].key, Noised(noise, i, counts[i].value));
      assert p[..i] + [p[i]] == p[..i + 1];
      NoiseFromPerturbed(counts, noise, i + 1);
    } else {
      assert p[..i] == p;
    }
  }

  /** With DP on, `aggregate_counts` on a dict keeps the dict's keys in order
      and gives the i-th key its count noised by the i-th draw. */
  lemma AggregateCountsNoised(config: PrivacyConfig, counts: Entries<int>, unit: nat -> real)
    requires config.enableDp && DistinctKeys(counts)
    ensures AggregateCounts(config, counts, unit) == Perturbed(counts, NoiseOf(config, unit))
  {
    var p := Perturbed(counts, NoiseOf(config, unit));
    assert p[..0] == [];
    NoiseFromPerturbed(counts, NoiseOf(config, unit), 0);
  }

  /** Hence the result has the dict's keys, and with DP on each count is the
      true count plus its noise, rounded, never below zero. */
  lemma AggregateCountsShape(config: PrivacyConfig, counts: Entries<int>, unit: nat -> real)
    requires DistinctKeys(counts)
    ensures Keys(AggregateCounts(config, counts, unit)) == Keys(counts)
    ensures config.enableDp ==> forall i :: 0 <= i < |counts| ==>
      AggregateCounts(config, counts, unit)[i].value == Noised(NoiseOf(config, unit), i, counts[i].value) >= 0
  {
    if config.enableDp {
      AggregateCountsNoised(config, counts, unit);
      var p := Perturbed(counts, NoiseOf(config, unit));
      assert Keys(p) == Keys(counts);
    }
  }

  /** `aggregate_histogram` is `aggregate_counts` on the buckets. */
  function AggregateHistogram(config: PrivacyConfig, buckets: Entries<int>, unit: nat -> real): (r: Entries<int>)
    ensures !config.enableDp ==> r == buckets
  {
    AggregateCounts(config, buckets, unit)
  }

  /** The dict `privatize_ratio` noises. */
  function RatioCounts(numerator: int, denominator: int): (r: Entries<int>)
    ensures DistinctKeys(r) && Keys(r) == ["num", "den"]
  {
    assert "num"[0] != "den"[0];
    [Entry("num", numerator), Entry("den", denominator)]
  }

  /** `privatize_ratio`: noise the numerator and the denominator as a dict,
      use 1 for a noised denominator of 0, and divide. */
  function PrivatizeRatio(config: PrivacyConfig, numerator: int, denominator: int, unit: nat -> real): (r: real)
    ensures config.enableDp ==> r >= 0.0
    ensures !config.enableDp ==> r == numerator as real / (if denominator == 0 then 1 else denominator) as real
  {
    var noisy := AggregateCounts(config, RatioCounts(numerator, denominator), unit);
    RatioKeys(config, numerator, denominator, unit);
    var num := Get(noisy, "num").value;
    var den := Get(noisy, "den").value;
    num as real / (if den == 0 then 1 else den) as real
  }

  /** Both keys of the ratio's dict survive `aggregate_counts`, holding the
      two counts, noised by the first and the second draw when DP is on. */
  lemma RatioKeys(config: PrivacyConfig, numerator: int, denominator: int, unit: nat -> real)
    ensures var noisy := AggregateCounts(config, RatioCounts(numerator, denominator), unit);
            && Get(noisy, "num") == Some(if config.enableDp then Noised(NoiseOf(config, unit), 0, numerator) else numerator)
            && Get(noisy, "den") == Some(if config.enableDp then Noised(NoiseOf(config, unit), 1, denominator) else denominator)
  {
    var counts := RatioCounts(numerator, denominator);
    if config.enableDp {
      AggregateCountsNoised(config, counts, unit);
      var noisy := Perturbed(counts, NoiseOf(config, unit));
      assert Keys(noisy) == Keys(counts);
      GetDistinct(noisy, 0);
      GetDistinct(noisy, 1);
    } else {
      GetDistinct(counts, 0);
      GetDistinct(counts, 1);
    }
  }

  /** With DP on, `privatize_ratio` divides the noised numerator by the
      noised denominator, or by 1 where that is 0. */
  lemma PrivatizeRatioNoised(config: PrivacyConfig, numerator: int, denominator: int, unit: nat -> real)
    requires config.enableDp
    ensures var num := Noised(NoiseOf(config, unit), 0, numerator);
            var den := Noised(NoiseOf(config, unit), 1, denominator);
            PrivatizeRatio(config, numerator, denominator, unit) == num as real / (if den == 0 then 1 else den) as real
  {
    RatioKeys(config, numerator, denominator, unit);
  }

  /** What `explain` reports for each parameter. */
  datatype Explanation = Explanation(description: string, value: real)

  /** `explain`: the configured epsilon and delta, each with its description. */
  function Explain(config: PrivacyConfig): (r: Entries<Explanation>)
    ensures Keys(r) == ["epsilon", "delta"]
    ensures Get(r, "epsilon").Some? && Get(r, "epsilon").value.value == config.epsilon
    ensures Get(r, "delta").Some? && Get(r, "delta").value.value == config.delta
  {
    [Entry("epsilon", Explanation("privacy budget (lower is stronger privacy)", config.epsilon)),
     Entry("delta", Explanation("probability of failure guarantee", config.delta))]
  }
}
