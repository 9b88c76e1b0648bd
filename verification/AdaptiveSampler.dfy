/** The adaptive sampler: counts per window, and at each roll a new budget and a new probability from
    exponential moving averages. Floating point is modelled by reals. */
module AdaptiveSampler {
  import opened SampleCounts

  /** The constants of a sampler; the weights of the two averages stand for 1 - lookback^(-1/lookback). */
  datatype Config = Config(samplesPerWindow: int, budgetLookback: nat, emaAlpha: real, budgetAlpha: real)

  predicate ValidConfig(c: Config) {
    c.budgetLookback >= 1 && 0.0 <= c.emaAlpha < 1.0 && 0.0 <= c.budgetAlpha < 1.0
  }

  datatype Averages = Averages(samples: real, total: real, budget: int, probability: real)

  function MaxReal(a: real, b: real): real {
    if a >= b then a else b
  }

  function MinReal(a: real, b: real): real {
    if a <= b then a else b
  }

  // llround: half-way cases away from zero.
  function Round(x: real): int {
    if x >= 0.0 then (x + 0.5).Floor else -((-x + 0.5).Floor)
  }

  // --- Rolling ---

  function Smooth(alpha: real, average: real, x: int): real {
    average + alpha * (x as real - average)
  }

  function SampleAverage(c: Config, a: Averages, sampled: int): real {
    if c.budgetAlpha <= 0.0 then sampled as real else Smooth(c.budgetAlpha, a.samples, sampled)
  }

  function Budget(c: Config, average: real): int {
    Round(MaxReal(c.samplesPerWindow as real - average, 0.0) * c.budgetLookback as real)
  }

  function TotalAverage(c: Config, a: Averages, total: nat): real {
    if a.total == 0.0 || c.emaAlpha <= 0.0 then total as real else Smooth(c.emaAlpha, a.total, total)
  }

  function Probability(budget: int, total: real): real {
    if total <= 0.0 then 1.0 else MinReal(budget as real / total, 1.0)
  }

  function Roll(c: Config, a: Averages, total: nat, sampled: int): Averages {
    var samples := SampleAverage(c, a, sampled);
    var average := TotalAverage(c, a, total);
    var budget := Budget(c, samples);
    Averages(samples, average, budget, Probability(budget, average))
  }

  // --- Bounds ---

  lemma SmoothBetween(alpha: real, average: real, x: nat, high: real)
    requires 0.0 <= alpha < 1.0 && 0.0 <= average <= high && x as real <= high
    ensures 0.0 <= Smooth(alpha, average, x) <= high
  {
    var y, p := x as real, alpha * (x as real - average);
    if y >= average {
      Fraction(alpha, y - average, p);
    } else {
      Fraction(alpha, average - y, -p);
    }
    Between(average, y, p, high);
  }

  lemma Fraction(alpha: real, d: real, p: real)
    requires 0.0 <= alpha < 1.0 && 0.0 <= d && p == alpha * d
    ensures 0.0 <= p <= d
  {
    NotNegative(alpha, d);
    NotNegative(1.0 - alpha, d);
  }

  lemma NotNegative(a: real, b: real)
    requires 0.0 <= a && 0.0 <= b
    ensures 0.0 <= a * b
  {
  }

  lemma Between(average: real, y: real, p: real, high: real)
    requires 0.0 <= average <= high && 0.0 <= y <= high
    requires if y >= average then 0.0 <= p <= y - average else 0.0 <= -p <= average - y
    ensures 0.0 <= average + p <= high
  {
  }

  lemma Scaled(k: real, x: real, high: real)
    requires 0.0 <= k && 0.0 <= x <= high
    ensures 0.0 <= k * x <= k * high
  {
    NotNegative(k, x);
    NotNegative(k, high - x);
  }

  lemma RoundBetween(x: real, n: int)
    requires 0.0 <= x <= n as real
    ensures 0 <= Round(x) <= n
  {
    assert x + 0.5 <= n as real + 0.5;
  }

  lemma BudgetBetween(c: Config, average: real)
    requires ValidConfig(c) && average >= 0.0
    ensures 0 <= Budget(c, average) <= Max(c.samplesPerWindow, 0) * c.budgetLookback
  {
    var room := MaxReal(c.samplesPerWindow as real - average, 0.0);
    var most := Max(c.samplesPerWindow, 0);
    assert 0.0 <= room <= most as real;
    Scaled(c.budgetLookback as real, room, most as real);
    RoundBetween(room * c.budgetLookback as real, most * c.budgetLookback);
  }

  lemma ProbabilityBetween(budget: int, total: real)
    requires budget >= 0
    ensures 0.0 <= Probability(budget, total) <= 1.0
  {
    if total > 0.0 { assert budget as real / total >= 0.0; }
  }

  ghost predicate InBounds(c: Config, a: Averages, high: real) {
    && 0.0 <= a.samples <= high && 0.0 <= a.total <= high && 0.0 <= a.probability <= 1.0
    && 0 <= a.budget <= Max(c.samplesPerWindow, 0) * c.budgetLookback
  }

  lemma RollBounds(c: Config, a: Averages, total: nat, sampled: nat, high: real)
    requires ValidConfig(c) && 0.0 <= a.samples <= high && 0.0 <= a.total <= high
    requires total as real <= high && sampled as real <= high
    ensures InBounds(c, Roll(c, a, total, sampled), high)
  {
    SmoothBetween(c.budgetAlpha, a.samples, sampled, high);
    SmoothBetween(c.emaAlpha, a.total, total, high);
    BudgetBetween(c, SampleAverage(c, a, sampled));
    ProbabilityBetween(Budget(c, SampleAverage(c, a, sampled)), TotalAverage(c, a, total));
  }

  /** The counts read at one roll: tested, sampled. */
  datatype Window = Window(tested: nat, sampled: nat)

  function Rolls(c: Config, a: Averages, windows: seq<Window>): Averages
    decreases |windows|
  {
    if windows == [] then a else Rolls(c, Roll(c, a, windows[0].tested, windows[0].sampled), windows[1..])
  }

  function Initial(c: Config): Averages {
    Averages(0.0, 0.0, c.samplesPerWindow + c.budgetLookback * c.samplesPerWindow, 1.0)
  }

  lemma {:induction false} RollsBounds(c: Config, a: Averages, windows: seq<Window>, high: real)
    requires ValidConfig(c) && 0.0 <= a.samples <= high && 0.0 <= a.total <= high
    requires forall k :: 0 <= k < |windows| ==> windows[k].tested as real <= high && windows[k].sampled as real <= high
    ensures windows != [] ==> InBounds(c, Rolls(c, a, windows), high)
    decreases |windows|
  {
    if windows != [] {
      var b := Roll(c, a, windows[0].tested, windows[0].sampled);
      RollBounds(c, a, windows[0].tested, windows[0].sampled, high);
      forall k | 0 <= k < |windows[1..]|
        ensures windows[1..][k].tested as real <= high && windows[1..][k].sampled as real <= high
      {
        assert windows[1..][k] == windows[k + 1];
      }
      RollsBounds(c, b, windows[1..], high);
      if windows[1..] == [] { assert Rolls(c, a, windows) == b; }
    }
  }

  /** After any run of rolls, whatever the windows counted: the averages lie between 0 and the largest
      count, the budget between 0 and the lookback times the samples per window, the probability between
      0 and 1. */
  lemma EveryRunBounded(c: Config, windows: seq<Window>, high: real)
    requires ValidConfig(c) && windows != [] && 0.0 <= high
    requires forall k :: 0 <= k < |windows| ==> windows[k].tested as real <= high && windows[k].sampled as real <= high
    ensures InBounds(c, Rolls(c, Initial(c), windows), high)
  {
    RollsBounds(c, Initial(c), windows, high);
  }

  // --- What the averages, the budget and the probability are for ---

  function Power(x: real, n: nat): real {
    if n == 0 then 1.0 else x * Power(x, n - 1)
  }

  // What was tested, and what was sampled, window by window.
  function Tested(windows: seq<Window>): (r: seq<nat>)
    ensures |r| == |windows|
  {
    seq(|windows|, k requires 0 <= k < |windows| => windows[k].tested)
  }

  function Sampled(windows: seq<Window>): (r: seq<nat>)
    ensures |r| == |windows|
  {
    seq(|windows|, k requires 0 <= k < |windows| => windows[k].sampled)
  }

  // The counts weighted by alpha, each older one by another factor 1 - alpha.
  function WeightedCounts(alpha: real, counts: seq<nat>): real
    decreases |counts|
  {
    if counts == [] then 0.0
    else alpha * Power(1.0 - alpha, |counts| - 1) * counts[0] as real + WeightedCounts(alpha, counts[1..])
  }

  // A first average, by another factor 1 - alpha for each count, and the counts weighted.
  function WeightedFrom(alpha: real, first: real, counts: seq<nat>): real {
    Power(1.0 - alpha, |counts|) * first + WeightedCounts(alpha, counts)
  }

  // One average alone, count after count.
  function Averaged(alpha: real, average: real, counts: seq<nat>): real
    decreases |counts|
  {
    if counts == [] then average else Averaged(alpha, Smooth(alpha, average, counts[0]), counts[1..])
  }

  lemma {:induction false} RollsAverage(c: Config, a: Averages, windows: seq<Window>)
    requires c.budgetAlpha > 0.0
    ensures Rolls(c, a, windows).samples == Averaged(c.budgetAlpha, a.samples, Sampled(windows))
    decreases |windows|
  {
    if windows != [] {
      RollsAverage(c, Roll(c, a, windows[0].tested, windows[0].sampled), windows[1..]);
      assert Sampled(windows)[1..] == Sampled(windows[1..]);
    }
  }

  lemma {:induction false} AveragedIsWeighted(alpha: real, average: real, counts: seq<nat>)
    ensures Averaged(alpha, average, counts) == WeightedFrom(alpha, average, counts)
    decreases |counts|
  {
    if counts != [] {
      AveragedIsWeighted(alpha, Smooth(alpha, average, counts[0]), counts[1..]);
      OneMoreCount(alpha, average, counts);
    }
  }

  lemma OneMoreCount(alpha: real, average: real, counts: seq<nat>)
    requires counts != []
    ensures WeightedFrom(alpha, average, counts) ==
            WeightedFrom(alpha, Smooth(alpha, average, counts[0]), counts[1..])
  {
    var rest, x, s := counts[1..], counts[0] as real, Smooth(alpha, average, counts[0]);
    var p, q := Power(1.0 - alpha, |rest|), Power(1.0 - alpha, |counts|);
    var w, v := WeightedCounts(alpha, rest), WeightedCounts(alpha, counts);
    assert |rest| == |counts| - 1;
    Spread(alpha, p, q, average, x, s, w, v, p * s + w);
  }

  // One more window in front: its weight, and the older average by another factor.
  lemma Spread(alpha: real, p: real, q: real, a: real, x: real, s: real, w: real, v: real, r: real)
    requires q == (1.0 - alpha) * p && s == a + alpha * (x - a) && r == p * s + w && v == alpha * p * x + w
    ensures r == q * a + v
  {
    calc {
      p * s;
      p * (a + alpha * (x - a));
      p * a + p * (alpha * (x - a));
      p * a + (alpha * p * x - alpha * p * a);
      (1.0 - alpha) * p * a + alpha * p * x;
    }
  }

  /** The sample average is the exponentially weighted sum of the counts of all windows so far. */
  lemma SampleAverageIsWeighted(c: Config, windows: seq<Window>)
    requires c.budgetAlpha > 0.0
    ensures Rolls(c, Initial(c), windows).samples == WeightedCounts(c.budgetAlpha, Sampled(windows))
  {
    RollsAverage(c, Initial(c), windows);
    AveragedIsWeighted(c.budgetAlpha, 0.0, Sampled(windows));
  }

  lemma SmoothPositive(alpha: real, average: real, x: nat)
    requires 0.0 < alpha < 1.0 && average > 0.0
    ensures Smooth(alpha, average, x) > 0.0
  {
    Mixed(alpha, average, x as real, (1.0 - alpha) * average, alpha * x as real);
  }

  // An average that is positive and a count that is not negative, mixed.
  lemma Mixed(alpha: real, a: real, y: real, p: real, q: real)
    requires 0.0 < alpha < 1.0 && 0.0 < a && 0.0 <= y && p == (1.0 - alpha) * a && q == alpha * y
    ensures 0.0 < a + alpha * (y - a)
  {
    Positive(1.0 - alpha, a, p);
    NotNegative(alpha, y);
    MixedSum(alpha, a, y, p, q);
    assert 0.0 < p + q;
  }

  lemma Positive(a: real, b: real, p: real)
    requires 0.0 < a && 0.0 < b && p == a * b
    ensures 0.0 < p
  {
  }

  lemma MixedSum(alpha: real, a: real, y: real, p: real, q: real)
    requires p == (1.0 - alpha) * a && q == alpha * y
    ensures a + alpha * (y - a) == p + q
  {
  }

  // Once positive the total average stays so, and is smoothed at every roll.
  lemma {:induction false} RollsTotal(c: Config, a: Averages, windows: seq<Window>)
    requires 0.0 < c.emaAlpha < 1.0 && a.total > 0.0
    ensures Rolls(c, a, windows).total == Averaged(c.emaAlpha, a.total, Tested(windows))
    decreases |windows|
  {
    if windows != [] {
      SmoothPositive(c.emaAlpha, a.total, windows[0].tested);
      RollsTotal(c, Roll(c, a, windows[0].tested, windows[0].sampled), windows[1..]);
      assert Tested(windows)[1..] == Tested(windows[1..]);
    }
  }

  // What the total average comes to when the first count is not zero.
  lemma FromFirstCount(c: Config, a: Averages, windows: seq<Window>)
    requires 0.0 < c.emaAlpha < 1.0 && a.total == 0.0 && windows != [] && windows[0].tested > 0
    ensures Rolls(c, a, windows).total == Averaged(c.emaAlpha, windows[0].tested as real, Tested(windows[1..]))
  {
    var b := Roll(c, a, windows[0].tested, windows[0].sampled);
    assert b.total == windows[0].tested as real;
    RollsTotal(c, b, windows[1..]);
  }

  // The total average, from the first count that is not zero on.
  lemma {:induction false} FromCount(c: Config, a: Averages, windows: seq<Window>, k: nat)
    requires 0.0 < c.emaAlpha < 1.0 && a.total == 0.0 && k <= |windows|
    requires (forall i :: 0 <= i < k ==> windows[i].tested == 0) && (k < |windows| ==> windows[k].tested > 0)
    ensures Rolls(c, a, windows).total ==
            if k == |windows| then 0.0
            else Averaged(c.emaAlpha, windows[k].tested as real, Tested(windows[k + 1..]))
    decreases k
  {
    if k == 0 {
      if windows != [] { FromFirstCount(c, a, windows); }
    } else {
      var b, rest := Roll(c, a, windows[0].tested, windows[0].sampled), windows[1..];
      FromCount(c, b, rest, k - 1);
      if k < |windows| { assert rest[k..] == windows[k + 1..]; }
    }
  }

  /** The total average starts with the first count k that is not zero and is from then on the exponentially weighted
      sum of that count and all later ones; it is zero when there is no such count. */
  lemma TotalAverageIsWeighted(c: Config, windows: seq<Window>, k: nat)
    requires 0.0 < c.emaAlpha < 1.0 && k <= |windows|
    requires (forall i :: 0 <= i < k ==> windows[i].tested == 0) && (k < |windows| ==> windows[k].tested > 0)
    ensures k == |windows| ==> Rolls(c, Initial(c), windows).total == 0.0
    ensures k < |windows| ==>
              Rolls(c, Initial(c), windows).total ==
              WeightedFrom(c.emaAlpha, windows[k].tested as real, Tested(windows[k + 1..]))
  {
    FromCount(c, Initial(c), windows, k);
    if k < |windows| {
      AveragedIsWeighted(c.emaAlpha, windows[k].tested as real, Tested(windows[k + 1..]));
    }
  }

  /** Without a weight it is the count of the last window. */
  lemma {:induction false} TotalAverageUnweighted(c: Config, a: Averages, windows: seq<Window>)
    requires c.emaAlpha <= 0.0 && windows != []
    ensures Rolls(c, a, windows).total == windows[|windows| - 1].tested as real
    decreases |windows|
  {
    var b := Roll(c, a, windows[0].tested, windows[0].sampled);
    if |windows| > 1 {
      TotalAverageUnweighted(c, b, windows[1..]);
    } else {
      assert Rolls(c, b, windows[1..]) == b;
    }
  }

  /** The probability makes the expected number of samples the budget, or all tests if they are fewer. */
  lemma ProbabilityMeetsBudget(budget: int, total: real)
    requires total > 0.0
    ensures Probability(budget, total) * total == MinReal(budget as real, total)
  {
    var q := budget as real / total;
    assert q * total == budget as real;
    if q > 1.0 { NotNegative(q - 1.0, total); } else { NotNegative(1.0 - q, total); }
  }

  /** The more a window has sampled, the smaller the next budget; a window without samples leaves it whole. */
  lemma BudgetFalls(c: Config, low: real, high: real)
    requires ValidConfig(c) && 0.0 <= low <= high
    ensures Budget(c, high) <= Budget(c, low) && Budget(c, 0.0) == Max(c.samplesPerWindow, 0) * c.budgetLookback
  {
    var a, b := MaxReal(c.samplesPerWindow as real - high, 0.0), MaxReal(c.samplesPerWindow as real - low, 0.0);
    Scaled(c.budgetLookback as real, a, b);
    var x, y := a * c.budgetLookback as real, b * c.budgetLookback as real;
    assert x + 0.5 <= y + 0.5;
    WholeBudget(c);
  }

  /** The budget is, to the nearest integer, what the windows of the lookback may still sample. */
  lemma BudgetIsRest(c: Config, average: real)
    requires ValidConfig(c)
    ensures var left := c.samplesPerWindow as real - average;
            var rest := if left > 0.0 then left * c.budgetLookback as real else 0.0;
            -0.5 <= Budget(c, average) as real - rest <= 0.5
  {
    var left := c.samplesPerWindow as real - average;
    RoundNearest(MaxReal(left, 0.0) * c.budgetLookback as real);
  }

  lemma RoundNearest(x: real)
    ensures -0.5 <= Round(x) as real - x <= 0.5
  {
  }

  lemma WholeBudget(c: Config)
    requires ValidConfig(c)
    ensures Budget(c, 0.0) == Max(c.samplesPerWindow, 0) * c.budgetLookback
  {
    var most := Max(c.samplesPerWindow, 0);
    assert MaxReal(c.samplesPerWindow as real - 0.0, 0.0) == most as real;
    assert most as real * c.budgetLookback as real == (most * c.budgetLookback) as real;
  }

  /** With a negative number of samples per window the sample average turns negative at once: a single
      accepted test leaves the negative budget in the counter. */
  lemma NegativeSamples(c: Config)
    requires ValidConfig(c) && c.samplesPerWindow < 0
    ensures Roll(c, Initial(c), 1, Min(1, Initial(c).budget)).samples < 0.0
  {
    var budget := Initial(c).budget;
    assert c.budgetLookback * c.samplesPerWindow < 0;
    if c.budgetAlpha > 0.0 { NotNegative(c.budgetAlpha, -(budget as real)); }
    assert c.budgetAlpha > 0.0 ==> c.budgetAlpha * budget as real < 0.0;
  }

  // --- The sampler ---

  class Sampler {
    const config: Config
    var averages: Averages
    var tests: seq<nat>
    var samples: seq<int>
    var slot: nat

    // The slot not in use is clear, so that every window starts from zero.
    ghost predicate Valid()
      reads this
    {
      && ValidConfig(config) && |tests| == 2 && |samples| == 2 && slot < 2
      && tests[1 - slot] == 0 && samples[1 - slot] == 0
      && 0.0 <= averages.total
      && (config.samplesPerWindow >= 0 ==> 0.0 <= averages.samples && averages.budget >= 0 && samples[slot] >= 0)
    }

    // Lookbacks below 1 count as 1; alpha gives the weight for a lookback.
    constructor (samplesPerWindow: int, averageLookback: int, budgetLookback: int, alpha: int -> real)
      requires forall n :: n >= 1 ==> 0.0 <= alpha(n) < 1.0
      ensures Valid() && averages == Initial(config) && tests == [0, 0] && samples == [0, 0]
      ensures config ==
              Config(samplesPerWindow, Max(budgetLookback, 1), alpha(Max(averageLookback, 1)),
                     alpha(Max(budgetLookback, 1)))
    {
      config := Config(samplesPerWindow, Max(budgetLookback, 1), alpha(Max(averageLookback, 1)),
                       alpha(Max(budgetLookback, 1)));
      averages := Averages(0.0, 0.0, samplesPerWindow + Max(budgetLookback, 1) * samplesPerWindow, 1.0);
      tests, samples, slot := [0, 0], [0, 0], 0;
      new;
      if samplesPerWindow >= 0 { assert Max(budgetLookback, 1) * samplesPerWindow >= 0; }
    }

    /** Tests and, below the probability, tries to sample: true while the window holds fewer than
        budget - 1 samples. */
    method Sample(random: real) returns (sampled: bool)
      requires Valid()
      modifies this
      ensures Valid() && averages == old(averages) && slot == old(slot)
      ensures tests[slot] == old(tests[slot]) + 1
      ensures sampled <==> random < averages.probability && old(samples[slot]) + 1 < averages.budget
      ensures samples[slot] ==
              if random < averages.probability then Min(old(samples[slot]) + 1, averages.budget) else old(samples[slot])
    {
      tests := tests[slot := tests[slot] + 1];
      if random < averages.probability {
        var next := Min(samples[slot] + 1, averages.budget);
        samples := samples[slot := next];
        return next < averages.budget;
      }
      return false;
    }

    method Keep() returns (kept: bool)
      requires Valid()
      modifies this
      ensures Valid() && kept && averages == old(averages) && slot == old(slot)
      ensures tests[slot] == old(tests[slot]) + 1 && samples[slot] == old(samples[slot]) + 1
    {
      tests, samples := tests[slot := tests[slot] + 1], samples[slot := samples[slot] + 1];
      return true;
    }

    method Drop() returns (kept: bool)
      requires Valid()
      modifies this
      ensures Valid() && !kept && averages == old(averages) && slot == old(slot)
      ensures tests[slot] == old(tests[slot]) + 1 && samples == old(samples)
    {
      tests := tests[slot := tests[slot] + 1];
      return false;
    }

    /** Takes the counts of the window into the averages; the next window starts from zero. */
    method RollWindow()
      requires Valid()
      modifies this
      ensures Valid() && averages == Roll(config, old(averages), old(tests[slot]), old(samples[slot]))
      ensures slot == 1 - old(slot) && tests == [0, 0] && samples == [0, 0]
    {
      var previous := slot;
      slot := (slot + 1) % 2;
      var total, sampled := tests[previous], samples[previous];
      ghost var high := MaxReal(MaxReal(averages.samples, averages.total), MaxReal(total as real, sampled as real));
      SmoothBetween(config.emaAlpha, averages.total, total, high);
      if config.samplesPerWindow >= 0 { RollBounds(config, averages, total, sampled, high); }
      var average := SampleAverage(config, averages, sampled);
      averages := averages.(samples := average, budget := Budget(config, average));
      averages := averages.(total := TotalAverage(config, averages, total));
      if averages.total <= 0.0 {
        averages := averages.(probability := 1.0);
      } else {
        averages := averages.(probability := MinReal(averages.budget as real / averages.total, 1.0));
      }
      tests, samples := tests[previous := 0], samples[previous := 0];
    }
  }
}
