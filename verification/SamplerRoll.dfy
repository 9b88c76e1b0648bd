/** When a window roll that calls are interleaved with leaves its slot clear, and when it works as one step. */
module SamplerRoll {
  import opened AdaptiveSampler
  import opened SamplerProtocol

  // --- A whole roll, without a call in between ---

  // From the flip to the new budget, and from there to the end.
  function ToBudget(c: Config, s: State): (r: State)
    requires Shaped(s) && s.roller.Flipped?
    ensures Shaped(r) && r.roller.Budgeted? && r.slot == s.slot && r.tests == s.tests && r.callers == s.callers
    ensures r.samples == s.samples && r.roller.total == s.tests[s.roller.prev]
    ensures var average := SampleAverage(c, s.a, s.samples[s.roller.prev]);
            r.a == s.a.(samples := average, budget := Budget(c, average))
  {
    Apply(c, Apply(c, Apply(c, s, ReadTotal), ReadSampled), StoreBudget)
  }

  function ToIdle(c: Config, s: State): (r: State)
    requires Shaped(s) && s.roller.Budgeted?
    ensures Shaped(r) && r.roller.Idle? && r.slot == s.slot && r.callers == s.callers
    ensures r.tests == s.tests[1 - s.slot := 0] && r.samples == s.samples[1 - s.slot := 0]
    ensures var total := TotalAverage(c, s.a, s.roller.total);
            r.a == s.a.(total := total, probability := Probability(s.a.budget, total))
  {
    Apply(c, Apply(c, Apply(c, Apply(c, s, StoreAverage), StoreProbability), ClearTests), ClearSamples)
  }

  function Rolled(c: Config, s: State): (r: State)
    requires Shaped(s) && s.roller.Flipped?
    ensures Shaped(r) && r.roller.Idle? && r.slot == s.slot && r.callers == s.callers
    ensures r.tests == s.tests[1 - s.slot := 0] && r.samples == s.samples[1 - s.slot := 0]
    ensures r.a == Roll(c, s.a, s.tests[1 - s.slot], s.samples[1 - s.slot])
  {
    ToIdle(c, ToBudget(c, s))
  }

  lemma AlwaysRolled(c: Config, s: State, good: State -> bool)
    requires Shaped(s) && s.roller.Flipped? && Always(c, s, false, good)
    ensures Always(c, Rolled(c, s), false, good)
  {
    var s1 := Apply(c, s, ReadTotal);
    AlwaysStep(c, s, ReadTotal, false, good);
    var s2 := Apply(c, s1, ReadSampled);
    AlwaysStep(c, s1, ReadSampled, false, good);
    AlwaysStep(c, s2, StoreBudget, false, good);
    AlwaysFinished(c, ToBudget(c, s), good);
  }

  lemma AlwaysFinished(c: Config, s: State, good: State -> bool)
    requires Shaped(s) && s.roller.Budgeted? && Always(c, s, false, good)
    ensures Always(c, ToIdle(c, s), false, good)
  {
    var s1 := Apply(c, s, StoreAverage);
    AlwaysStep(c, s, StoreAverage, false, good);
    var s2 := Apply(c, s1, StoreProbability);
    AlwaysStep(c, s1, StoreProbability, false, good);
    var s3 := Apply(c, s2, ClearTests);
    AlwaysStep(c, s2, ClearTests, false, good);
    AlwaysStep(c, s3, ClearSamples, false, good);
  }

  // --- The tests ---

  // Once the roll is over, slot x has no tests.
  predicate NoTests(x: nat, s: State) {
    s.roller.Idle? && x < |s.tests| ==> s.tests[x] == 0
  }

  predicate NoSamples(x: nat, s: State) {
    s.roller.Idle? && x < |s.samples| ==> s.samples[x] == 0
  }

  ghost predicate ClearsTests(x: nat, good: State -> bool) {
    forall s :: good(s) ==> NoTests(x, s)
  }

  ghost predicate ClearsSamples(x: nat, good: State -> bool) {
    forall s :: good(s) ==> NoSamples(x, s)
  }

  ghost predicate In(s: State, x: nat, t: nat) {
    t in s.callers && s.callers[t].slot == x
  }

  ghost predicate NoneTesting(s: State, x: nat) {
    forall t :: In(s, x, t) ==> !s.callers[t].Testing?
  }

  // A call that has not counted its test yet may count it after the roll.
  lemma TestingSpoils(c: Config, s: State, x: nat, t: nat, good: State -> bool)
    requires Shaped(s) && s.roller == Flipped(x) && Always(c, s, false, good) && ClearsTests(x, good)
    requires In(s, x, t)
    ensures !s.callers[t].Testing?
  {
    if s.callers[t].Testing? {
      var s1 := Rolled(c, s);
      AlwaysRolled(c, s, good);
      AlwaysStep(c, s1, AddTest(t), false, good);
      AlwaysNow(c, Apply(c, s1, AddTest(t)), false, good);
    }
  }

  ghost predicate TestsGo(x: nat, s: State) {
    && Shaped(s) && x < 2 && s.slot == 1 - x && NoneTesting(s, x)
    && (s.roller.Idle? || s.roller.Cleared? ==> s.tests[x] == 0)
  }

  lemma StepTestsGo(c: Config, x: nat, s: State, step: Step)
    requires TestsGo(x, s) && Enabled(s, step) && step != Flip
    ensures TestsGo(x, Apply(c, s, step))
  {
    StepShaped(c, s, step);
  }

  lemma {:induction false} RunTestsGo(c: Config, x: nat, s0: State, steps: seq<Step>, s: State)
    requires TestsGo(x, s0) && Run(c, s0, steps, s) && Flip !in steps
    ensures TestsGo(x, s)
    decreases |steps|
  {
    if steps != [] {
      assert steps[0] in steps;
      StepTestsGo(c, x, s0, steps[0]);
      RunTestsGo(c, x, Apply(c, s0, steps[0]), steps[1..], s);
    }
  }

  /** The tests of the closed window are gone when the roll is over, however calls are interleaved with it, exactly
      when no call of that window was still to count its test. */
  lemma TestsClearExactly(c: Config, s0: State)
    requires Shaped(s0) && s0.roller.Idle?
    ensures (forall steps, s :: Run(c, Apply(c, s0, Flip), steps, s) && Flip !in steps && s.roller.Idle? ==>
               Shaped(s) && s.tests[s0.slot] == 0)
            <==> NoneTesting(s0, s0.slot)
  {
    var x, s1 := s0.slot, Apply(c, s0, Flip);
    if NoneTesting(s0, x) {
      assert NoneTesting(s1, x);
      forall steps, s | Run(c, s1, steps, s) && Flip !in steps && s.roller.Idle?
        ensures Shaped(s) && s.tests[x] == 0
      {
        RunTestsGo(c, x, s1, steps, s);
      }
    }
    if forall steps, s :: Run(c, s1, steps, s) && Flip !in steps && s.roller.Idle? ==> Shaped(s) && s.tests[x] == 0 {
      var good := (s: State) => NoTests(x, s);
      assert Always(c, s1, false, good) && ClearsTests(x, good);
      forall t | In(s0, x, t) ensures !s0.callers[t].Testing? { TestingSpoils(c, s1, x, t, good); }
    }
  }

  // --- The samples: what a call under way may leave ---

  // The budget a roll stores that reads n samples.
  function NewBudget(c: Config, a: Averages, n: int): int {
    Budget(c, SampleAverage(c, a, n))
  }

  lemma AverageGrows(c: Config, a: Averages, low: int, high: int)
    requires low <= high
    ensures SampleAverage(c, a, low) <= SampleAverage(c, a, high)
    ensures low < high ==> SampleAverage(c, a, low) < SampleAverage(c, a, high)
  {
    if c.budgetAlpha > 0.0 { Grows(c.budgetAlpha, a.samples, low as real, high as real); }
  }

  lemma Grows(alpha: real, average: real, low: real, high: real)
    requires alpha > 0.0 && low <= high
    ensures average + alpha * (low - average) <= average + alpha * (high - average)
    ensures low < high ==> average + alpha * (low - average) < average + alpha * (high - average)
  {
    NotNegative(alpha, high - low);
    assert alpha * (high - average) - alpha * (low - average) == alpha * (high - low);
    if low < high { assert alpha * (high - low) > 0.0; }
  }

  lemma BudgetShrinks(c: Config, a: Averages, low: int, high: int)
    requires low <= high
    ensures 0 <= NewBudget(c, a, high) <= NewBudget(c, a, low)
  {
    AverageGrows(c, a, low, high);
    RoomShrinks(c, SampleAverage(c, a, low), SampleAverage(c, a, high));
  }

  lemma RoomShrinks(c: Config, low: real, high: real)
    requires low <= high
    ensures 0 <= Budget(c, high) <= Budget(c, low)
  {
    var a, b := MaxReal(c.samplesPerWindow as real - high, 0.0), MaxReal(c.samplesPerWindow as real - low, 0.0);
    Scaled(c.budgetLookback as real, a, b);
    var x, y := a * c.budgetLookback as real, b * c.budgetLookback as real;
    assert 0.0 <= x && x + 0.5 <= y + 0.5;
  }

  lemma ProbabilityPositive(budget: int, total: real)
    requires budget > 0
    ensures Probability(budget, total) > 0.0
  {
    if total > 0.0 { assert budget as real / total > 0.0; }
  }

  // A call that can go on to count a sample before the roll stores anything.
  predicate CanSample(s: State, t: nat)
    requires t in s.callers
  {
    var k := s.callers[t];
    k.Limiting? || k.Loading? || k.Loaded? || (k.Deciding? && s.a.probability > 0.0)
  }

  ghost predicate OtherSamples(s: State, x: nat, t: nat) {
    exists u :: In(s, x, u) && u != t && CanSample(s, u)
  }

  // The least the roll may read while call t stands still: a call that meets a limit of 0 brings the count to 0.
  ghost function Least(s: State, x: nat, t: nat): int
    requires x < |s.samples|
  {
    if s.samples[x] > 0 && OtherSamples(s, x, t) then 0 else s.samples[x]
  }

  /** Call t cannot leave anything in slot x: its limit is 0, or will be. */
  ghost predicate Harmless(c: Config, s: State, x: nat, t: nat)
    requires t in s.callers && x < |s.samples|
  {
    match s.callers[t]
    case Testing(_, _) => false
    case Keeping(_) => false
    case Loading(_, limit) => limit == 0
    case Loaded(_, limit, _) => limit == 0
    case Limiting(_) => s.a.budget == 0 && NewBudget(c, s.a, Least(s, x, t)) == 0
    case Deciding(_) =>
      (s.a.probability <= 0.0 || s.a.budget == 0) && NewBudget(c, s.a, Least(s, x, t)) == 0
  }

  ghost predicate AllHarmless(c: Config, s: State, x: nat)
    requires x < |s.samples|
  {
    forall t :: In(s, x, t) ==> Harmless(c, s, x, t)
  }

  // --- Harmless is necessary ---

  ghost predicate Ready(c: Config, s: State, x: nat, good: State -> bool) {
    Shaped(s) && x < 2 && s.slot == 1 - x && Always(c, s, false, good) && ClearsSamples(x, good)
  }

  // After the roll, a count with another limit than 0 shows.
  lemma IdleLoading(c: Config, s: State, x: nat, t: nat, good: State -> bool)
    requires Ready(c, s, x, good) && s.roller.Idle? && s.samples[x] == 0 && In(s, x, t) && s.callers[t].Loading?
    ensures s.callers[t].limit == 0
  {
    var s1 := Apply(c, s, LoadCount(t));
    AlwaysStep(c, s, LoadCount(t), false, good);
    AlwaysStep(c, s1, CompareExchange(t), false, good);
    AlwaysNow(c, Apply(c, s1, CompareExchange(t)), false, good);
  }

  lemma IdleLoaded(c: Config, s: State, x: nat, t: nat, good: State -> bool)
    requires Ready(c, s, x, good) && s.roller.Idle? && s.samples[x] == 0 && In(s, x, t) && s.callers[t].Loaded?
    ensures s.callers[t].limit == 0
  {
    var s1 := Apply(c, s, CompareExchange(t));
    AlwaysStep(c, s, CompareExchange(t), false, good);
    if s.callers[t].previous == 0 {
      AlwaysNow(c, s1, false, good);
    } else {
      IdleLoading(c, s1, x, t, good);
    }
  }

  lemma IdleLimiting(c: Config, s: State, x: nat, t: nat, good: State -> bool)
    requires Ready(c, s, x, good) && s.roller.Idle? && s.samples[x] == 0 && In(s, x, t) && s.callers[t].Limiting?
    ensures s.a.budget == 0
  {
    AlwaysStep(c, s, LoadLimit(t), false, good);
    IdleLoading(c, Apply(c, s, LoadLimit(t)), x, t, good);
  }

  lemma ReadyRolled(c: Config, s: State, x: nat, good: State -> bool)
    requires Ready(c, s, x, good) && s.roller.Flipped?
    ensures Ready(c, Rolled(c, s), x, good) && Rolled(c, s).samples[x] == 0
  {
    AlwaysRolled(c, s, good);
  }

  lemma KeepingSpoils(c: Config, s: State, x: nat, t: nat, good: State -> bool)
    requires Ready(c, s, x, good) && s.roller.Flipped? && In(s, x, t)
    ensures !s.callers[t].Keeping?
  {
    if s.callers[t].Keeping? {
      var s1 := Rolled(c, s);
      ReadyRolled(c, s, x, good);
      AlwaysStep(c, s1, AddSample(t), false, good);
      AlwaysNow(c, Apply(c, s1, AddSample(t)), false, good);
    }
  }

  lemma LimitIsZero(c: Config, s: State, x: nat, t: nat, good: State -> bool)
    requires Ready(c, s, x, good) && s.roller.Flipped? && In(s, x, t)
    ensures s.callers[t].Loading? || s.callers[t].Loaded? ==> s.callers[t].limit == 0
  {
    var s1 := Rolled(c, s);
    ReadyRolled(c, s, x, good);
    if s.callers[t].Loading? { IdleLoading(c, s1, x, t, good); }
    if s.callers[t].Loaded? { IdleLoaded(c, s1, x, t, good); }
  }

  lemma LimitingBudget(c: Config, s: State, x: nat, t: nat, good: State -> bool)
    requires Ready(c, s, x, good) && s.roller.Flipped? && In(s, x, t) && s.callers[t].Limiting?
    ensures s.a.budget == 0 && NewBudget(c, s.a, s.samples[x]) == 0
  {
    AlwaysStep(c, s, LoadLimit(t), false, good);
    LimitIsZero(c, Apply(c, s, LoadLimit(t)), x, t, good);
    ReadyRolled(c, s, x, good);
    IdleLimiting(c, Rolled(c, s), x, t, good);
  }

  lemma DecidingBudget(c: Config, s: State, x: nat, t: nat, good: State -> bool)
    requires Ready(c, s, x, good) && s.roller.Flipped? && In(s, x, t) && s.callers[t].Deciding?
    ensures (s.a.probability <= 0.0 || s.a.budget == 0) && NewBudget(c, s.a, s.samples[x]) == 0
  {
    if s.a.probability > 0.0 {
      AlwaysStep(c, s, Decide(t, 0.0), false, good);
      LimitingBudget(c, Apply(c, s, Decide(t, 0.0)), x, t, good);
    }
    var s1 := Rolled(c, s);
    ReadyRolled(c, s, x, good);
    BudgetShrinks(c, s.a, s.samples[x], s.samples[x]);
    if s1.a.budget > 0 {
      ProbabilityPositive(s1.a.budget, s1.a.total);
      AlwaysStep(c, s1, Decide(t, 0.0), false, good);
      IdleLimiting(c, Apply(c, s1, Decide(t, 0.0)), x, t, good);
    }
  }

  /** Call t counts its sample before the roll reads, against a limit of 0. */
  ghost predicate Counted(s: State, s': State, x: nat, t: nat)
    requires x < |s.samples| && x < |s'.samples|
  {
    && s'.a == s.a && s'.roller == s.roller && s'.callers == s.callers - {t} && s'.tests == s.tests
    && s'.samples[x] == SampleCounts.Min(s.samples[x] + 1, 0)
  }

  lemma LoadedCounts(c: Config, s: State, x: nat, t: nat, good: State -> bool) returns (s': State)
    requires Ready(c, s, x, good) && s.roller.Flipped? && In(s, x, t)
    requires s.callers[t].Loaded? && s.callers[t].previous == s.samples[x]
    ensures Ready(c, s', x, good) && Counted(s, s', x, t)
  {
    LimitIsZero(c, s, x, t, good);
    s' := Apply(c, s, CompareExchange(t));
    AlwaysStep(c, s, CompareExchange(t), false, good);
  }

  lemma LoadingCounts(c: Config, s: State, x: nat, t: nat, good: State -> bool) returns (s': State)
    requires Ready(c, s, x, good) && s.roller.Flipped? && In(s, x, t) && s.callers[t].Loading?
    ensures Ready(c, s', x, good) && Counted(s, s', x, t)
  {
    var s1 := Apply(c, s, LoadCount(t));
    AlwaysStep(c, s, LoadCount(t), false, good);
    s' := LoadedCounts(c, s1, x, t, good);
    assert s1.callers - {t} == s.callers - {t};
  }

  lemma LimitingCounts(c: Config, s: State, x: nat, t: nat, good: State -> bool) returns (s': State)
    requires Ready(c, s, x, good) && s.roller.Flipped? && In(s, x, t) && s.callers[t].Limiting?
    ensures Ready(c, s', x, good) && Counted(s, s', x, t)
  {
    var s1 := Apply(c, s, LoadLimit(t));
    AlwaysStep(c, s, LoadLimit(t), false, good);
    s' := LoadingCounts(c, s1, x, t, good);
    assert s1.callers - {t} == s.callers - {t};
  }

  lemma SampleCounted(c: Config, s: State, x: nat, t: nat, good: State -> bool) returns (s': State)
    requires Ready(c, s, x, good) && s.roller.Flipped? && In(s, x, t) && CanSample(s, t)
    ensures Ready(c, s', x, good) && Counted(s, s', x, t)
  {
    var k := s.callers[t];
    if k.Limiting? {
      s' := LimitingCounts(c, s, x, t, good);
    } else if k.Loading? {
      s' := LoadingCounts(c, s, x, t, good);
    } else if k.Loaded? && k.previous == s.samples[x] {
      s' := LoadedCounts(c, s, x, t, good);
    } else if k.Loaded? {
      var s1 := Apply(c, s, CompareExchange(t));
      AlwaysStep(c, s, CompareExchange(t), false, good);
      s' := LoadingCounts(c, s1, x, t, good);
      assert s1.callers - {t} == s.callers - {t};
    } else {
      var s1 := Apply(c, s, Decide(t, 0.0));
      AlwaysStep(c, s, Decide(t, 0.0), false, good);
      s' := LimitingCounts(c, s1, x, t, good);
      assert s1.callers - {t} == s.callers - {t};
    }
  }

  // The new budget is 0 whatever the roll may read.
  lemma LeastBudget(c: Config, s: State, x: nat, t: nat, good: State -> bool)
    requires Ready(c, s, x, good) && s.roller.Flipped? && In(s, x, t)
    requires s.callers[t].Limiting? || s.callers[t].Deciding?
    ensures NewBudget(c, s.a, Least(s, x, t)) == 0
  {
    var s' := s;
    if s.samples[x] > 0 && OtherSamples(s, x, t) {
      var u :| In(s, x, u) && u != t && CanSample(s, u);
      s' := SampleCounted(c, s, x, u, good);
    }
    if s.callers[t].Limiting? { LimitingBudget(c, s', x, t, good); } else { DecidingBudget(c, s', x, t, good); }
  }

  lemma HarmlessNeeded(c: Config, s: State, x: nat, t: nat, good: State -> bool)
    requires Ready(c, s, x, good) && s.roller == Flipped(x) && ClearsTests(x, good) && In(s, x, t)
    ensures Harmless(c, s, x, t)
  {
    TestingSpoils(c, s, x, t, good);
    KeepingSpoils(c, s, x, t, good);
    LimitIsZero(c, s, x, t, good);
    if s.callers[t].Limiting? {
      LimitingBudget(c, s, x, t, good);
      LeastBudget(c, s, x, t, good);
    }
    if s.callers[t].Deciding? {
      DecidingBudget(c, s, x, t, good);
      LeastBudget(c, s, x, t, good);
    }
  }

  // --- Harmless is sufficient ---

  predicate IsCall(step: Step) {
    step.Enter? || step.AddTest? || step.Decide? || step.LoadLimit? || step.LoadCount? || step.CompareExchange? ||
    step.AddSample?
  }

  predicate BeforeRead(r: Roller) {
    r.Flipped? || r.HasTotal?
  }

  // Harmless in every phase of the roll: once the samples are read, the new budget is settled.
  ghost predicate CalmCall(c: Config, s: State, x: nat, t: nat)
    requires t in s.callers && x < |s.samples|
  {
    if BeforeRead(s.roller) then Harmless(c, s, x, t)
    else
      match s.callers[t]
      case Testing(_, _) => false
      case Keeping(_) => false
      case Loading(_, limit) => limit == 0
      case Loaded(_, limit, _) => limit == 0
      case _ =>
        if s.roller.HasCounts? then
          && NewBudget(c, s.a, s.roller.sampled) == 0
          && (s.a.budget == 0 || (s.callers[t].Deciding? && s.a.probability <= 0.0))
        else s.a.budget == 0
  }

  ghost predicate Calm(c: Config, x: nat, s: State) {
    && Shaped(s) && x < 2 && s.slot == 1 - x && (forall t :: In(s, x, t) ==> CalmCall(c, s, x, t))
    && (s.roller.Idle? || s.roller.Cleared? ==> s.tests[x] == 0) && (s.roller.Idle? ==> s.samples[x] == 0)
  }

  // A call of the other slot leaves this one alone.
  lemma CallElsewhere(c: Config, x: nat, s: State, step: Step)
    requires Shaped(s) && x < 2 && s.slot == 1 - x && Enabled(s, step) && IsCall(step) && !In(s, x, step.t)
    ensures var s' := Apply(c, s, step);
            && Shaped(s') && s'.a == s.a && s'.slot == s.slot && s'.roller == s.roller
            && s'.tests[x] == s.tests[x] && s'.samples[x] == s.samples[x]
            && (forall t :: In(s', x, t) <==> In(s, x, t))
            && (forall t :: In(s, x, t) ==> s'.callers[t] == s.callers[t])
  {
    StepShaped(c, s, step);
  }

  lemma HarmlessKept(c: Config, s: State, s': State, x: nat, t: nat)
    requires In(s, x, t) && In(s', x, t) && x < |s.samples| && x < |s'.samples| && s'.callers[t] == s.callers[t]
    requires s'.a == s.a && Least(s, x, t) <= Least(s', x, t) && Harmless(c, s, x, t)
    ensures Harmless(c, s', x, t)
  {
    BudgetShrinks(c, s.a, Least(s, x, t), Least(s', x, t));
  }

  lemma SameOthers(s: State, s': State, x: nat, t: nat)
    requires s'.callers == s.callers && s'.a == s.a
    ensures OtherSamples(s', x, t) <==> OtherSamples(s, x, t)
  {
    if OtherSamples(s', x, t) {
      var u :| In(s', x, u) && u != t && CanSample(s', u);
      assert In(s, x, u) && CanSample(s, u);
    }
    if OtherSamples(s, x, t) {
      var u :| In(s, x, u) && u != t && CanSample(s, u);
      assert In(s', x, u) && CanSample(s', u);
    }
  }

  lemma ElsewhereCalm(c: Config, x: nat, s: State, step: Step)
    requires Calm(c, x, s) && Enabled(s, step) && IsCall(step) && !In(s, x, step.t)
    ensures Calm(c, x, Apply(c, s, step))
  {
    var s' := Apply(c, s, step);
    CallElsewhere(c, x, s, step);
    forall t | In(s', x, t) ensures CalmCall(c, s', x, t) {
      assert In(s, x, t) && CalmCall(c, s, x, t);
      if BeforeRead(s.roller) {
        assert OtherSamples(s', x, t) <==> OtherSamples(s, x, t);
        HarmlessKept(c, s, s', x, t);
      }
    }
  }

  // What a harmless call does in its slot.
  lemma OwnStep(c: Config, x: nat, s: State, step: Step)
    requires Calm(c, x, s) && Enabled(s, step) && IsCall(step) && In(s, x, step.t)
    ensures var s' := Apply(c, s, step);
            && Shaped(s') && s'.a == s.a && s'.slot == s.slot && s'.roller == s.roller && s'.tests == s.tests
            && (forall t :: t != step.t ==> (In(s', x, t) <==> In(s, x, t)))
            && (forall t :: In(s, x, t) && t != step.t ==> s'.callers[t] == s.callers[t])
            && (In(s', x, step.t) && CanSample(s', step.t) ==> CanSample(s, step.t))
            && (s'.samples[x] == s.samples[x] ||
                (s'.samples[x] == SampleCounts.Min(s.samples[x] + 1, 0) && CanSample(s, step.t)))
  {
    StepShaped(c, s, step);
    assert CalmCall(c, s, x, step.t);
  }

  lemma OwnCalm(c: Config, x: nat, s: State, step: Step)
    requires Calm(c, x, s) && Enabled(s, step) && IsCall(step) && In(s, x, step.t)
    ensures Calm(c, x, Apply(c, s, step))
  {
    var s' := Apply(c, s, step);
    OwnStep(c, x, s, step);
    assert CalmCall(c, s, x, step.t);
    forall t | In(s', x, t) ensures CalmCall(c, s', x, t) {
      if t == step.t { OwnCalmCall(c, x, s, step); } else { OtherCalmCall(c, x, s, step, t); }
    }
  }

  lemma OtherCalmCall(c: Config, x: nat, s: State, step: Step, t: nat)
    requires Calm(c, x, s) && Enabled(s, step) && IsCall(step) && In(s, x, step.t)
    requires In(Apply(c, s, step), x, t) && t != step.t
    ensures CalmCall(c, Apply(c, s, step), x, t)
  {
    var s' := Apply(c, s, step);
    OwnStep(c, x, s, step);
    assert In(s, x, t) && CalmCall(c, s, x, t);
    if BeforeRead(s.roller) {
      if OtherSamples(s', x, t) {
        var u :| In(s', x, u) && u != t && CanSample(s', u);
        assert In(s, x, u) && CanSample(s, u);
      }
      HarmlessKept(c, s, s', x, t);
    }
  }

  lemma OwnCalmCall(c: Config, x: nat, s: State, step: Step)
    requires Calm(c, x, s) && Enabled(s, step) && IsCall(step) && In(s, x, step.t) && In(Apply(c, s, step), x, step.t)
    ensures CalmCall(c, Apply(c, s, step), x, step.t)
  {
    var s' := Apply(c, s, step);
    OwnStep(c, x, s, step);
    assert CalmCall(c, s, x, step.t);
    if BeforeRead(s.roller) {
      assert OtherSamples(s', x, step.t) <==> OtherSamples(s, x, step.t);
    }
  }

  lemma RollCalm(c: Config, x: nat, s: State, step: Step)
    requires Calm(c, x, s) && Enabled(s, step) && !IsCall(step) && step != Flip
    ensures Calm(c, x, Apply(c, s, step))
  {
    var s' := Apply(c, s, step);
    StepShaped(c, s, step);
    forall t | In(s', x, t) ensures CalmCall(c, s', x, t) {
      assert In(s, x, t) && CalmCall(c, s, x, t);
      if step.ReadTotal? {
        SameOthers(s, s', x, t);
        HarmlessKept(c, s, s', x, t);
      }
      if step.ReadSampled? { BudgetShrinks(c, s.a, Least(s, x, t), s.samples[x]); }
    }
  }

  lemma {:induction false} RunCalm(c: Config, x: nat, s0: State, steps: seq<Step>, s: State)
    requires Calm(c, x, s0) && Run(c, s0, steps, s) && Flip !in steps
    ensures Calm(c, x, s)
    decreases |steps|
  {
    if steps != [] {
      var step := steps[0];
      assert step in steps;
      if !IsCall(step) {
        RollCalm(c, x, s0, step);
      } else if In(s0, x, step.t) {
        OwnCalm(c, x, s0, step);
      } else {
        ElsewhereCalm(c, x, s0, step);
      }
      RunCalm(c, x, Apply(c, s0, step), steps[1..], s);
    }
  }

  // The flip changes nothing a call depends on.
  lemma FlipHarmless(c: Config, s: State)
    requires Shaped(s) && s.roller.Idle?
    ensures var s' := Apply(c, s, Flip);
            && Shaped(s') && s'.roller == Flipped(s.slot) && (forall t :: In(s', s.slot, t) <==> In(s, s.slot, t))
            && (AllHarmless(c, s', s.slot) <==> AllHarmless(c, s, s.slot))
  {
    var s', x := Apply(c, s, Flip), s.slot;
    forall t | In(s, x, t) ensures Harmless(c, s', x, t) <==> Harmless(c, s, x, t) {
      SameOthers(s, s', x, t);
    }
  }

  predicate Clear(x: nat, s: State) {
    NoTests(x, s) && NoSamples(x, s)
  }

  /** Both counts of the closed window are 0 when the roll is over, however calls are interleaved with it, exactly
      when every call of that window that is under way has, or will get, a limit of 0. */
  lemma SlotClearExactly(c: Config, s0: State)
    requires Shaped(s0) && s0.roller.Idle?
    ensures (forall steps, s :: Run(c, Apply(c, s0, Flip), steps, s) && Flip !in steps ==> Clear(s0.slot, s))
            <==> AllHarmless(c, s0, s0.slot)
  {
    var x, s1 := s0.slot, Apply(c, s0, Flip);
    FlipHarmless(c, s0);
    if AllHarmless(c, s1, x) {
      forall steps, s | Run(c, s1, steps, s) && Flip !in steps ensures Clear(x, s) { RunCalm(c, x, s1, steps, s); }
    }
    if forall steps, s :: Run(c, s1, steps, s) && Flip !in steps ==> Clear(x, s) {
      var good := (s: State) => Clear(x, s);
      assert Always(c, s1, false, good) && ClearsTests(x, good) && ClearsSamples(x, good);
      forall t | In(s1, x, t) ensures Harmless(c, s1, x, t) { HarmlessNeeded(c, s1, x, t, good); }
    }
  }

  // No call holds slot x.
  ghost predicate Free(s: State, x: nat) {
    forall t :: t in s.callers ==> s.callers[t].slot != x
  }

  /** Where samples are wanted, with a budget, a probability and limits other than 0, that means: exactly when no call
      of that window is under way. */
  lemma SlotClearIffFree(c: Config, s0: State)
    requires Shaped(s0) && s0.roller.Idle? && s0.a.budget != 0 && s0.a.probability > 0.0
    requires forall t :: In(s0, s0.slot, t) && (s0.callers[t].Loading? || s0.callers[t].Loaded?) ==>
               s0.callers[t].limit != 0
    ensures (forall steps, s :: Run(c, Apply(c, s0, Flip), steps, s) && Flip !in steps ==> Clear(s0.slot, s))
            <==> Free(s0, s0.slot)
  {
    SlotClearExactly(c, s0);
    forall t | In(s0, s0.slot, t) ensures !Harmless(c, s0, s0.slot, t) {}
    if forall t :: !In(s0, s0.slot, t) {
      forall t | t in s0.callers ensures s0.callers[t].slot != s0.slot { assert !In(s0, s0.slot, t); }
    }
  }

  // --- The roll as one step ---

  /** Over, the roll has taken in these counts, and the slot is clear. */
  predicate AsOneStep(c: Config, a: Averages, x: nat, tested: nat, sampled: int, s: State) {
    s.roller.Idle? ==> s.a == Roll(c, a, tested, sampled) && Clear(x, s)
  }

  // No call can change the count that the roll is to read.
  ghost predicate Settled(s: State, x: nat)
    requires x < |s.samples|
  {
    s.samples[x] == 0 || forall t :: In(s, x, t) ==> !CanSample(s, t)
  }

  // What the roll that closes slot x with these counts has done so far.
  ghost predicate Underway(c: Config, a: Averages, x: nat, tested: nat, sampled: int, s: State) {
    && Calm(c, x, s) && (BeforeRead(s.roller) ==> s.samples[x] == sampled && Settled(s, x))
    && (!s.roller.Idle? && !s.roller.Cleared? ==> s.tests[x] == tested)
    && (Reading(s.roller) ==> s.roller.total == tested)
    && match s.roller
       case Flipped(_) => s.a == a
       case HasTotal(_, _) => s.a == a
       case HasCounts(_, _, n) => s.a == a && n == sampled
       case Budgeted(_, _) => s.a == Roll(c, a, tested, sampled).(total := a.total, probability := a.probability)
       case Averaged(_, _) => s.a == Roll(c, a, tested, sampled).(probability := a.probability)
       case _ => s.a == Roll(c, a, tested, sampled)
  }

  lemma ElsewhereUnderway(c: Config, a: Averages, x: nat, tested: nat, sampled: int, s: State, step: Step)
    requires Underway(c, a, x, tested, sampled, s) && Enabled(s, step) && IsCall(step) && !In(s, x, step.t)
    ensures Underway(c, a, x, tested, sampled, Apply(c, s, step))
  {
    ElsewhereCalm(c, x, s, step);
    CallElsewhere(c, x, s, step);
  }

  lemma OwnUnderway(c: Config, a: Averages, x: nat, tested: nat, sampled: int, s: State, step: Step)
    requires Underway(c, a, x, tested, sampled, s) && Enabled(s, step) && IsCall(step) && In(s, x, step.t)
    ensures Underway(c, a, x, tested, sampled, Apply(c, s, step))
  {
    var s' := Apply(c, s, step);
    OwnCalm(c, x, s, step);
    OwnStep(c, x, s, step);
    if BeforeRead(s.roller) && s.samples[x] != 0 {
      forall t | In(s', x, t) ensures !CanSample(s', t) {
        assert In(s, x, t) && !CanSample(s, t);
      }
    }
  }

  lemma RollUnderway(c: Config, a: Averages, x: nat, tested: nat, sampled: int, s: State, step: Step)
    requires Underway(c, a, x, tested, sampled, s) && Enabled(s, step) && !IsCall(step) && step != Flip
    ensures Underway(c, a, x, tested, sampled, Apply(c, s, step))
  {
    RollCalm(c, x, s, step);
    if step.ReadTotal? && s.samples[x] != 0 {
      forall t | In(Apply(c, s, step), x, t) ensures !CanSample(Apply(c, s, step), t) {
        assert In(s, x, t) && !CanSample(s, t);
      }
    }
  }

  lemma {:induction false} RunUnderway(c: Config, a: Averages, x: nat, tested: nat, sampled: int, s0: State,
                                       steps: seq<Step>, s: State)
    requires Underway(c, a, x, tested, sampled, s0) && Run(c, s0, steps, s) && Flip !in steps
    ensures Underway(c, a, x, tested, sampled, s)
    decreases |steps|
  {
    if steps != [] {
      var step := steps[0];
      assert step in steps;
      if !IsCall(step) {
        RollUnderway(c, a, x, tested, sampled, s0, step);
      } else if In(s0, x, step.t) {
        OwnUnderway(c, a, x, tested, sampled, s0, step);
      } else {
        ElsewhereUnderway(c, a, x, tested, sampled, s0, step);
      }
      RunUnderway(c, a, x, tested, sampled, Apply(c, s0, step), steps[1..], s);
    }
  }

  // A call that changes the count changes the average.
  lemma SettledNeeded(c: Config, s: State, x: nat, good: State -> bool)
    requires Ready(c, s, x, good) && s.roller.Flipped?
    requires forall e :: good(e) ==> e.roller.Idle? ==> e.a.samples == SampleAverage(c, s.a, s.samples[x])
    ensures Settled(s, x)
  {
    if t :| s.samples[x] != 0 && In(s, x, t) && CanSample(s, t) {
      var s' := SampleCounted(c, s, x, t, good);
      ReadyRolled(c, s', x, good);
      AlwaysNow(c, Rolled(c, s'), false, good);
      if s.samples[x] > 0 { AverageGrows(c, s.a, 0, s.samples[x]); }
      else { AverageGrows(c, s.a, s.samples[x], s.samples[x] + 1); }
    }
  }

  /** The roll works as one step, however calls are interleaved with it, exactly when every call of its window that is
      under way is harmless and none can change the count that the roll is to read. */
  lemma RollAtomicExactly(c: Config, s0: State)
    requires Shaped(s0) && s0.roller.Idle?
    ensures (forall steps, s :: Run(c, Apply(c, s0, Flip), steps, s) && Flip !in steps ==>
               AsOneStep(c, s0.a, s0.slot, s0.tests[s0.slot], s0.samples[s0.slot], s))
            <==> AllHarmless(c, s0, s0.slot) && Settled(s0, s0.slot)
  {
    var x, s1 := s0.slot, Apply(c, s0, Flip);
    var tested, sampled := s0.tests[x], s0.samples[x];
    FlipHarmless(c, s0);
    assert Settled(s1, x) <==> Settled(s0, x);
    if AllHarmless(c, s1, x) && Settled(s1, x) {
      forall steps, s | Run(c, s1, steps, s) && Flip !in steps ensures AsOneStep(c, s0.a, x, tested, sampled, s) {
        RunUnderway(c, s0.a, x, tested, sampled, s1, steps, s);
      }
    }
    if forall steps, s :: Run(c, s1, steps, s) && Flip !in steps ==> AsOneStep(c, s0.a, x, tested, sampled, s) {
      OneStepNeeded(c, s0.a, x, tested, sampled, s1);
    }
  }

  lemma OneStepNeeded(c: Config, a: Averages, x: nat, tested: nat, sampled: int, s: State)
    requires Shaped(s) && s.roller == Flipped(x) && s.a == a && s.samples[x] == sampled
    requires forall steps, e :: Run(c, s, steps, e) && Flip !in steps ==> AsOneStep(c, a, x, tested, sampled, e)
    ensures AllHarmless(c, s, x) && Settled(s, x)
  {
    var good := (e: State) => AsOneStep(c, a, x, tested, sampled, e);
    assert Always(c, s, false, good) && ClearsTests(x, good) && ClearsSamples(x, good);
    forall t | In(s, x, t) ensures Harmless(c, s, x, t) { HarmlessNeeded(c, s, x, t, good); }
    SettledNeeded(c, s, x, good);
  }

  /** So it does when no call of its window is under way: the averages take in the counts of the window, and its slot
      is left clear. */
  lemma RollAtomic(c: Config, s0: State, steps: seq<Step>, s: State)
    requires Shaped(s0) && s0.roller.Idle? && Free(s0, s0.slot)
    requires Run(c, Apply(c, s0, Flip), steps, s) && Flip !in steps && s.roller.Idle?
    ensures s.a == Roll(c, s0.a, s0.tests[s0.slot], s0.samples[s0.slot])
    ensures Shaped(s) && s.slot == 1 - s0.slot && s.tests[s0.slot] == 0 && s.samples[s0.slot] == 0
  {
    var x, s1 := s0.slot, Apply(c, s0, Flip);
    assert Underway(c, s0.a, x, s0.tests[x], s0.samples[x], s1);
    RunUnderway(c, s0.a, x, s0.tests[x], s0.samples[x], s1, steps, s);
  }

  // --- A call left behind ---

  lemma FinishRun(c: Config, s0: State, tail: seq<Step>, s: State) returns (steps: seq<Step>)
    requires Shaped(s0) && s0.roller.Budgeted? && Run(c, ToIdle(c, s0), tail, s)
    ensures Run(c, s0, steps, s)
  {
    var s1 := Apply(c, s0, StoreAverage);
    var s2 := Apply(c, s1, StoreProbability);
    steps := ClearRun(c, s2, tail, s);
    RunFirst(c, s1, StoreProbability, steps, s);
    steps := [StoreProbability] + steps;
    RunFirst(c, s0, StoreAverage, steps, s);
    steps := [StoreAverage] + steps;
  }

  lemma ClearRun(c: Config, s0: State, tail: seq<Step>, s: State) returns (steps: seq<Step>)
    requires Shaped(s0) && s0.roller.Priced? && Run(c, Apply(c, Apply(c, s0, ClearTests), ClearSamples), tail, s)
    ensures Run(c, s0, steps, s)
  {
    var s1 := Apply(c, s0, ClearTests);
    RunFirst(c, s1, ClearSamples, tail, s);
    steps := [ClearSamples] + tail;
    RunFirst(c, s0, ClearTests, steps, s);
    steps := [ClearTests] + steps;
  }

  lemma RollRun(c: Config, s0: State, tail: seq<Step>, s: State) returns (steps: seq<Step>)
    requires Shaped(s0) && s0.roller.Flipped? && Run(c, ToBudget(c, s0), tail, s)
    ensures Run(c, s0, steps, s)
  {
    var s1 := Apply(c, s0, ReadTotal);
    var s2 := Apply(c, s1, ReadSampled);
    RunFirst(c, s2, StoreBudget, tail, s);
    steps := [StoreBudget] + tail;
    RunFirst(c, s1, ReadSampled, steps, s);
    steps := [ReadSampled] + steps;
    RunFirst(c, s0, ReadTotal, steps, s);
    steps := [ReadTotal] + steps;
  }

  lemma WholeRollRun(c: Config, s0: State, tail: seq<Step>, s: State) returns (steps: seq<Step>)
    requires Shaped(s0) && s0.roller.Idle? && Run(c, Rolled(c, Apply(c, s0, Flip)), tail, s)
    ensures Run(c, s0, steps, s)
  {
    var s1 := Apply(c, s0, Flip);
    steps := FinishRun(c, ToBudget(c, s1), tail, s);
    steps := RollRun(c, s1, steps, s);
    RunFirst(c, s0, Flip, steps, s);
    steps := [Flip] + steps;
  }

  /** A call that came in before the roll and counts after it leaves the slot for the next window at one. */
  lemma SlotNotClear(c: Config) returns (steps: seq<Step>, s: State)
    ensures Run(c, Fresh(c), steps, s) && s.roller.Idle? && s.callers == map[] && s.slot == 1 && s.tests == [1, 0]
  {
    var s1 := Apply(c, Fresh(c), Enter(0, DropCall));
    var s2 := Rolled(c, Apply(c, s1, Flip));
    s := LateTest(c, s2);
    RunFirst(c, s2, AddTest(0), [], s);
    steps := WholeRollRun(c, s1, [AddTest(0)] + [], s);
    RunFirst(c, Fresh(c), Enter(0, DropCall), steps, s);
    steps := [Enter(0, DropCall)] + steps;
  }

  lemma LateTest(c: Config, s0: State) returns (s: State)
    requires Shaped(s0) && s0.callers == map[0 := Testing(DropCall, 0)] && s0.tests == [0, 0]
    ensures s == Apply(c, s0, AddTest(0)) && s.callers == map[] && s.tests == [1, 0]
    ensures s.slot == s0.slot && s.roller == s0.roller
  {
    s := Apply(c, s0, AddTest(0));
  }
}
