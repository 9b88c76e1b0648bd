/** The adaptive sampler with calls and window rolls interleaved at every atomic access: any number of callers,
    and the one timer thread that rolls. */
module SamplerProtocol {
  import opened AdaptiveSampler

  datatype Call = SampleCall | KeepCall | DropCall

  /** Where a caller stands; the slot is the one it took when it came in. */
  datatype Caller =
    | Testing(call: Call, slot: nat)
    | Deciding(slot: nat)
    | Limiting(slot: nat)
    | Loading(slot: nat, limit: int)
    | Loaded(slot: nat, limit: int, previous: int)
    | Keeping(slot: nat)

  /** Where the roll stands; prev is the slot of the window it closes. */
  datatype Roller =
    | Idle
    | Flipped(prev: nat)
    | HasTotal(prev: nat, total: nat)
    | HasCounts(prev: nat, total: nat, sampled: int)
    | Budgeted(prev: nat, total: nat)
    | Averaged(prev: nat, total: nat)
    | Priced(prev: nat, total: nat)
    | Cleared(prev: nat)

  /** How many tests have been counted, have been read by a roll, and came to a slot between its being read and its
      being cleared. */
  datatype History = History(tested: nat, taken: nat, late: nat)

  /** The same of the samples: those accepted, which count one each, apart from what calls that met the limit
      added or took away. */
  datatype Sampling = Sampling(accepted: nat, adjusted: int, taken: int, lateAccepted: nat, lateAdjusted: int)

  datatype State = State(tests: seq<nat>, samples: seq<int>, slot: nat, a: Averages, callers: map<nat, Caller>,
                         roller: Roller, h: History, k: Sampling)

  datatype Step =
    | Enter(t: nat, call: Call)
    | AddTest(t: nat)
    | Decide(t: nat, random: real)
    | LoadLimit(t: nat)
    | LoadCount(t: nat)
    | CompareExchange(t: nat)
    | AddSample(t: nat)
    | Flip
    | ReadTotal
    | ReadSampled
    | StoreBudget
    | StoreAverage
    | StoreProbability
    | ClearTests
    | ClearSamples

  function Fresh(c: Config): State {
    Unused(Initial(c))
  }

  function Unused(a: Averages): State {
    State([0, 0], [0, 0], 0, a, map[], Idle, History(0, 0, 0), Sampling(0, 0, 0, 0, 0))
  }

  // The counts of the closed window have been read and are still there.
  predicate Reading(r: Roller) {
    r.HasTotal? || r.HasCounts? || r.Budgeted? || r.Averaged? || r.Priced?
  }

  predicate ReadingSamples(r: Roller) {
    r.HasCounts? || r.Budgeted? || r.Averaged? || r.Priced? || r.Cleared?
  }

  ghost predicate Shaped(s: State) {
    && |s.tests| == 2 && |s.samples| == 2 && s.slot < 2 && (!s.roller.Idle? ==> s.roller.prev == 1 - s.slot)
    && forall t :: t in s.callers ==> s.callers[t].slot < 2
  }

  predicate Enabled(s: State, step: Step) {
    match step
    case Enter(t, _) => t !in s.callers
    case AddTest(t) => t in s.callers && s.callers[t].Testing?
    case Decide(t, random) => t in s.callers && s.callers[t].Deciding? && 0.0 <= random < 1.0
    case LoadLimit(t) => t in s.callers && s.callers[t].Limiting?
    case LoadCount(t) => t in s.callers && s.callers[t].Loading?
    case CompareExchange(t) => t in s.callers && s.callers[t].Loaded?
    case AddSample(t) => t in s.callers && s.callers[t].Keeping?
    case Flip => s.roller.Idle?
    case ReadTotal => s.roller.Flipped?
    case ReadSampled => s.roller.HasTotal?
    case StoreBudget => s.roller.HasCounts?
    case StoreAverage => s.roller.Budgeted?
    case StoreProbability => s.roller.Averaged?
    case ClearTests => s.roller.Priced?
    case ClearSamples => s.roller.Cleared?
  }

  function Tested(s: State, t: nat): State
    requires Shaped(s) && Enabled(s, AddTest(t))
  {
    var (call, x) := (s.callers[t].call, s.callers[t].slot);
    var late := if Reading(s.roller) && x == s.roller.prev then 1 else 0;
    s.(tests := s.tests[x := s.tests[x] + 1],
       callers := match call
                  case SampleCall => s.callers[t := Deciding(x)]
                  case KeepCall => s.callers[t := Keeping(x)]
                  case DropCall => s.callers - {t},
       h := s.h.(tested := s.h.tested + 1, late := s.h.late + late))
  }

  // One more sample, accepted or not, that changes a count; late tells whether its slot has been read.
  function Count(k: Sampling, accepted: bool, change: int, late: bool): Sampling {
    if accepted then
      k.(accepted := k.accepted + 1, lateAccepted := k.lateAccepted + if late then 1 else 0)
    else
      k.(adjusted := k.adjusted + change, lateAdjusted := k.lateAdjusted + if late then change else 0)
  }

  // The count of slot x goes to n; accepted tells whether the call is.
  function Sampled(s: State, x: nat, n: int, accepted: bool): State
    requires Shaped(s) && x < 2
  {
    var late := ReadingSamples(s.roller) && x == s.roller.prev;
    s.(samples := s.samples[x := n], k := Count(s.k, accepted, n - s.samples[x], late))
  }

  function Exchanged(s: State, t: nat): State
    requires Shaped(s) && Enabled(s, CompareExchange(t))
  {
    var Loaded(x, limit, previous) := s.callers[t];
    if s.samples[x] != previous then s.(callers := s.callers[t := Loading(x, limit)])
    else
      var next := SampleCounts.Min(previous + 1, limit);
      Sampled(s, x, next, next < limit).(callers := s.callers - {t})
  }

  function Apply(c: Config, s: State, step: Step): State
    requires Shaped(s) && Enabled(s, step)
  {
    match step
    case Enter(t, call) => s.(callers := s.callers[t := Testing(call, s.slot)])
    case AddTest(t) => Tested(s, t)
    case Decide(t, random) =>
      s.(callers := if random < s.a.probability then s.callers[t := Limiting(s.callers[t].slot)] else s.callers - {t})
    case LoadLimit(t) => s.(callers := s.callers[t := Loading(s.callers[t].slot, s.a.budget)])
    case LoadCount(t) =>
      var Loading(x, limit) := s.callers[t];
      s.(callers := s.callers[t := Loaded(x, limit, s.samples[x])])
    case CompareExchange(t) => Exchanged(s, t)
    case AddSample(t) =>
      var x := s.callers[t].slot;
      Sampled(s, x, s.samples[x] + 1, true).(callers := s.callers - {t})
    case Flip => s.(slot := 1 - s.slot, roller := Flipped(s.slot))
    case ReadTotal =>
      var total := s.tests[s.roller.prev];
      s.(roller := HasTotal(s.roller.prev, total), h := s.h.(taken := s.h.taken + total))
    case ReadSampled =>
      var sampled := s.samples[s.roller.prev];
      s.(roller := HasCounts(s.roller.prev, s.roller.total, sampled),
         k := s.k.(taken := s.k.taken + sampled))
    case StoreBudget =>
      var average := SampleAverage(c, s.a, s.roller.sampled);
      s.(a := s.a.(samples := average, budget := Budget(c, average)), roller := Budgeted(s.roller.prev, s.roller.total))
    case StoreAverage =>
      s.(a := s.a.(total := TotalAverage(c, s.a, s.roller.total)), roller := Averaged(s.roller.prev, s.roller.total))
    case StoreProbability =>
      s.(a := s.a.(probability := Probability(s.a.budget, s.a.total)), roller := Priced(s.roller.prev, s.roller.total))
    case ClearTests => s.(tests := s.tests[s.roller.prev := 0], roller := Cleared(s.roller.prev))
    case ClearSamples => s.(samples := s.samples[s.roller.prev := 0], roller := Idle)
  }

  ghost predicate Run(c: Config, s0: State, steps: seq<Step>, s: State)
    decreases |steps|
  {
    if steps == [] then s == s0
    else Shaped(s0) && Enabled(s0, steps[0]) && Run(c, Apply(c, s0, steps[0]), steps[1..], s)
  }

  lemma StepShaped(c: Config, s: State, step: Step)
    requires Shaped(s) && Enabled(s, step)
    ensures Shaped(Apply(c, s, step))
  {
  }

  // --- Every test is counted once ---

  // The tests in the slots that no roll has read.
  function Waiting(s: State): int
    requires |s.tests| == 2 && s.slot < 2
  {
    s.tests[s.slot] + if Reading(s.roller) then 0 else s.tests[1 - s.slot]
  }

  function WaitingSamples(s: State): int
    requires |s.samples| == 2 && s.slot < 2
  {
    s.samples[s.slot] + if ReadingSamples(s.roller) then 0 else s.samples[1 - s.slot]
  }

  ghost predicate Conserved(s: State) {
    Shaped(s) && s.h.tested == s.h.taken + s.h.late + Waiting(s)
  }

  ghost predicate ConservedSamples(s: State)
    requires Shaped(s)
  {
    s.k.accepted + s.k.adjusted == s.k.taken + s.k.lateAccepted + s.k.lateAdjusted + WaitingSamples(s)
  }

  lemma StepConserved(c: Config, s: State, step: Step)
    requires Conserved(s) && Enabled(s, step)
    ensures Conserved(Apply(c, s, step))
  {
    StepShaped(c, s, step);
  }

  lemma {:induction false} RunConserved(c: Config, s0: State, steps: seq<Step>, s: State)
    requires Conserved(s0) && Run(c, s0, steps, s)
    ensures Conserved(s)
    decreases |steps|
  {
    if steps != [] {
      StepConserved(c, s0, steps[0]);
      RunConserved(c, Apply(c, s0, steps[0]), steps[1..], s);
    }
  }

  /** In every interleaving, every counted test is read by exactly one roll, or waits for one, or is among the late
      ones: a test that came between the reading of its slot and its clearing is lost, and no other. */
  lemma TestsConserved(c: Config, steps: seq<Step>, s: State)
    requires Run(c, Fresh(c), steps, s)
    ensures Conserved(s)
  {
    UnusedConserved(Initial(c));
    RunConserved(c, Fresh(c), steps, s);
  }

  lemma SampledConserved(s: State, x: nat, n: int, accepted: bool)
    requires Shaped(s) && ConservedSamples(s) && x < 2 && (accepted ==> n == s.samples[x] + 1)
    ensures ConservedSamples(Sampled(s, x, n, accepted))
  {
  }

  lemma StepConservedSamples(c: Config, s: State, step: Step)
    requires Shaped(s) && ConservedSamples(s) && Enabled(s, step)
    ensures Shaped(Apply(c, s, step)) && ConservedSamples(Apply(c, s, step))
  {
    StepShaped(c, s, step);
    match step
    case AddSample(t) =>
      var x := s.callers[t].slot;
      SampledConserved(s, x, s.samples[x] + 1, true);
    case CompareExchange(t) =>
      var Loaded(x, limit, previous) := s.callers[t];
      if s.samples[x] == previous {
        var next := SampleCounts.Min(previous + 1, limit);
        SampledConserved(s, x, next, next < limit);
      }
    case _ =>
  }

  lemma UnusedConserved(a: Averages)
    ensures Conserved(Unused(a))
  {
  }

  lemma UnusedConservedSamples(a: Averages)
    ensures Shaped(Unused(a)) && ConservedSamples(Unused(a))
  {
  }

  lemma {:induction false} RunConservedSamples(c: Config, s0: State, steps: seq<Step>, s: State)
    requires Shaped(s0) && ConservedSamples(s0) && Run(c, s0, steps, s)
    ensures Shaped(s) && ConservedSamples(s)
    decreases |steps|
  {
    if steps != [] {
      StepConservedSamples(c, s0, steps[0]);
      RunConservedSamples(c, Apply(c, s0, steps[0]), steps[1..], s);
    }
  }

  /** The same of the samples: every accepted one is counted once, and with what the calls that met the limit changed,
      the counts are read by exactly one roll, or wait for one, or came between the reading of their slot and its
      clearing. */
  lemma SamplesConserved(c: Config, steps: seq<Step>, s: State)
    requires Run(c, Fresh(c), steps, s)
    ensures Shaped(s) && ConservedSamples(s)
  {
    UnusedConservedSamples(Initial(c));
    RunConservedSamples(c, Fresh(c), steps, s);
  }

  // --- Bounds ---

  // The largest budget: the one the sampler starts with.
  function Most(c: Config): int {
    (c.budgetLookback + 1) * c.samplesPerWindow
  }

  ghost predicate CallerBounded(c: Config, k: Caller) {
    k.Loading? || k.Loaded? ==> 0 <= k.limit <= Most(c)
  }

  /** What holds in every interleaving, unless the samples per window are negative. */
  ghost predicate Bounded(c: Config, s: State) {
    && Shaped(s) && 0.0 <= s.a.samples && 0.0 <= s.a.total && 0.0 <= s.a.probability <= 1.0
    && 0 <= s.a.budget <= Most(c) && 0 <= s.samples[0] && 0 <= s.samples[1]
    && (s.roller.HasCounts? ==> 0 <= s.roller.sampled)
    && (forall t :: t in s.callers ==> CallerBounded(c, s.callers[t]))
    && (forall t :: t in s.callers && s.callers[t].Loaded? ==> 0 <= s.callers[t].previous)
  }

  lemma BudgetBelowMost(c: Config, average: real)
    requires ValidConfig(c) && c.samplesPerWindow >= 0 && average >= 0.0
    ensures 0 <= Budget(c, average) <= Most(c)
  {
    BudgetBetween(c, average);
    assert c.samplesPerWindow * c.budgetLookback + c.samplesPerWindow == Most(c);
  }

  // The steps of the roll that compute.
  lemma RollBounded(c: Config, s: State, step: Step)
    requires ValidConfig(c) && c.samplesPerWindow >= 0 && Bounded(c, s) && Enabled(s, step)
    requires step.StoreBudget? || step.StoreAverage? || step.StoreProbability?
    ensures Bounded(c, Apply(c, s, step))
  {
    match step
    case StoreBudget =>
      var sampled: nat := s.roller.sampled;
      SmoothBetween(c.budgetAlpha, s.a.samples, sampled, MaxReal(s.a.samples, sampled as real));
      BudgetBelowMost(c, SampleAverage(c, s.a, sampled));
    case StoreAverage =>
      SmoothBetween(c.emaAlpha, s.a.total, s.roller.total, MaxReal(s.a.total, s.roller.total as real));
    case StoreProbability => ProbabilityBetween(s.a.budget, s.a.total);
  }

  lemma StepBounded(c: Config, s: State, step: Step)
    requires ValidConfig(c) && c.samplesPerWindow >= 0 && Bounded(c, s) && Enabled(s, step)
    ensures Bounded(c, Apply(c, s, step))
  {
    StepShaped(c, s, step);
    if step.StoreBudget? || step.StoreAverage? || step.StoreProbability? { RollBounded(c, s, step); }
  }

  lemma {:induction false} RunBounded(c: Config, s0: State, steps: seq<Step>, s: State)
    requires ValidConfig(c) && c.samplesPerWindow >= 0 && Bounded(c, s0) && Run(c, s0, steps, s)
    ensures Bounded(c, s)
    decreases |steps|
  {
    if steps != [] {
      StepBounded(c, s0, steps[0]);
      RunBounded(c, Apply(c, s0, steps[0]), steps[1..], s);
    }
  }

  lemma FreshBounded(c: Config)
    requires ValidConfig(c) && c.samplesPerWindow >= 0
    ensures Bounded(c, Fresh(c))
  {
    assert c.samplesPerWindow + c.budgetLookback * c.samplesPerWindow == Most(c);
    assert c.budgetLookback * c.samplesPerWindow >= 0;
  }

  /** Calls and rolls may interleave as they like: the averages, the counts and the probability are never
      negative, the probability is at most 1 and no limit exceeds the initial budget. */
  lemma EveryInterleavingBounded(c: Config, steps: seq<Step>, s: State)
    requires ValidConfig(c) && c.samplesPerWindow >= 0 && Run(c, Fresh(c), steps, s)
    ensures Bounded(c, s)
  {
    FreshBounded(c);
    RunBounded(c, Fresh(c), steps, s);
  }

  // --- The sample average ---

  ghost predicate NeverNegative(c: Config) {
    forall steps, s :: Run(c, Fresh(c), steps, s) ==> s.a.samples >= 0.0
  }

  lemma RunFirst(c: Config, s0: State, step: Step, steps: seq<Step>, s: State)
    requires Shaped(s0) && Enabled(s0, step) && Run(c, Apply(c, s0, step), steps, s)
    ensures Run(c, s0, [step] + steps, s)
  {
    assert ([step] + steps)[1..] == steps;
  }

  /** Whatever comes next, without a flip unless it is allowed, good holds. */
  ghost predicate Always(c: Config, s: State, flips: bool, good: State -> bool) {
    forall steps, e :: Run(c, s, steps, e) && (flips || Flip !in steps) ==> good(e)
  }

  lemma AlwaysStep(c: Config, s: State, step: Step, flips: bool, good: State -> bool)
    requires Shaped(s) && Enabled(s, step) && (flips || step != Flip) && Always(c, s, flips, good)
    ensures Always(c, Apply(c, s, step), flips, good) && Shaped(Apply(c, s, step))
  {
    StepShaped(c, s, step);
    forall steps, e | Run(c, Apply(c, s, step), steps, e) && (flips || Flip !in steps) ensures good(e) {
      RunFirst(c, s, step, steps, e);
    }
  }

  lemma AlwaysNow(c: Config, s: State, flips: bool, good: State -> bool)
    requires Always(c, s, flips, good)
    ensures good(s)
  {
    assert Run(c, s, [], s);
  }

  predicate AverageNotNegative(s: State) {
    s.a.samples >= 0.0
  }

  // One test that is accepted by the initial probability, and a roll up to the new budget.
  lemma OneSample(c: Config)
    requires Always(c, Fresh(c), true, AverageNotNegative)
    ensures SampleAverage(c, Initial(c), SampleCounts.Min(1, Initial(c).budget)) >= 0.0
  {
    var s1 := Apply(c, Fresh(c), Enter(0, SampleCall));
    AlwaysStep(c, Fresh(c), Enter(0, SampleCall), true, AverageNotNegative);
    var s2 := Apply(c, s1, AddTest(0));
    AlwaysStep(c, s1, AddTest(0), true, AverageNotNegative);
    var s3 := Apply(c, s2, Decide(0, 0.0));
    AlwaysStep(c, s2, Decide(0, 0.0), true, AverageNotNegative);
    OneLimited(c, s3);
  }

  lemma OneLimited(c: Config, s: State)
    requires Shaped(s) && s.roller.Idle? && s.slot == 0 && s.samples[0] == 0
    requires 0 in s.callers && s.callers[0] == Limiting(0) && Always(c, s, true, AverageNotNegative)
    ensures SampleAverage(c, s.a, SampleCounts.Min(1, s.a.budget)) >= 0.0
  {
    var s1 := Apply(c, s, LoadLimit(0));
    AlwaysStep(c, s, LoadLimit(0), true, AverageNotNegative);
    var s2 := Apply(c, s1, LoadCount(0));
    AlwaysStep(c, s1, LoadCount(0), true, AverageNotNegative);
    var s3 := Apply(c, s2, CompareExchange(0));
    AlwaysStep(c, s2, CompareExchange(0), true, AverageNotNegative);
    var s4 := Apply(c, s3, Flip);
    AlwaysStep(c, s3, Flip, true, AverageNotNegative);
    BudgetNotNegative(c, s4);
  }

  lemma BudgetNotNegative(c: Config, s: State)
    requires Shaped(s) && s.roller.Flipped? && Always(c, s, true, AverageNotNegative)
    ensures SampleAverage(c, s.a, s.samples[s.roller.prev]) >= 0.0
  {
    var s1 := Apply(c, s, ReadTotal);
    AlwaysStep(c, s, ReadTotal, true, AverageNotNegative);
    var s2 := Apply(c, s1, ReadSampled);
    AlwaysStep(c, s1, ReadSampled, true, AverageNotNegative);
    AlwaysStep(c, s2, StoreBudget, true, AverageNotNegative);
    AlwaysNow(c, Apply(c, s2, StoreBudget), true, AverageNotNegative);
  }

  /** The sample average never goes below zero, in any interleaving of calls and rolls, exactly when the samples per
      window are not negative. */
  lemma NeverNegativeExactly(c: Config)
    requires ValidConfig(c)
    ensures NeverNegative(c) <==> c.samplesPerWindow >= 0
  {
    if c.samplesPerWindow >= 0 {
      forall steps, s | Run(c, Fresh(c), steps, s) ensures s.a.samples >= 0.0 {
        EveryInterleavingBounded(c, steps, s);
      }
    } else {
      NegativeSamples(c);
      if NeverNegative(c) { OneSample(c); }
    }
  }
}
