/** The sample counter of one window: any number of threads in the compare-and-swap loop, interleaved at
    every atomic access. */
module SampleCounts {

  datatype Pc = Loading | Loaded(previous: int)

  /** The counter, the threads inside AddSample, and how many calls have returned, and returned true. */
  datatype State = State(count: int, threads: map<nat, Pc>, completed: nat, accepted: nat)

  datatype Step = Call(t: nat) | Load(t: nat) | CompareExchange(t: nat) | Keep

  function Min(a: int, b: int): int {
    if a <= b then a else b
  }

  function Max(a: int, b: int): int {
    if a >= b then a else b
  }

  predicate Enabled(s: State, step: Step) {
    match step
    case Call(t) => t !in s.threads
    case Load(t) => t in s.threads && s.threads[t].Loading?
    case CompareExchange(t) => t in s.threads && s.threads[t].Loaded?
    case Keep => true
  }

  function Apply(limit: int, s: State, step: Step): State
    requires Enabled(s, step)
  {
    match step
    case Call(t) => s.(threads := s.threads[t := Loading])
    case Load(t) => s.(threads := s.threads[t := Loaded(s.count)])
    case CompareExchange(t) =>
      var previous := s.threads[t].previous;
      var next := Min(previous + 1, limit);
      if s.count != previous then s.(threads := s.threads[t := Loading])
      else State(next, s.threads - {t}, s.completed + 1, s.accepted + if next < limit then 1 else 0)
    case Keep => s.(count := s.count + 1)
  }

  ghost predicate Run(limit: int, s0: State, steps: seq<Step>, s: State)
    decreases |steps|
  {
    if steps == [] then s == s0
    else Enabled(s0, steps[0]) && Run(limit, Apply(limit, s0, steps[0]), steps[1..], s)
  }

  const FRESH := State(0, map[], 0, 0)

  // --- Without unconditional samples ---

  ghost predicate Exact(limit: int, s: State) {
    && s.count == (if s.completed == 0 then 0 else Min(s.completed, limit))
    && s.accepted == Min(s.completed, Max(limit - 1, 0))
  }

  lemma StepExact(limit: int, s: State, step: Step)
    requires Exact(limit, s) && Enabled(s, step) && step != Keep
    ensures Exact(limit, Apply(limit, s, step))
  {
  }

  lemma {:induction false} RunExact(limit: int, s0: State, steps: seq<Step>, s: State)
    requires Exact(limit, s0) && Run(limit, s0, steps, s) && Keep !in steps
    ensures Exact(limit, s)
    decreases |steps|
  {
    if steps != [] {
      assert steps[0] in steps;
      StepExact(limit, s0, steps[0]);
      RunExact(limit, Apply(limit, s0, steps[0]), steps[1..], s);
    }
  }

  /** On a fresh window with a constant limit, in every interleaving, exactly the first limit - 1 of the
      calls that return return true. */
  lemma AcceptedExactly(limit: int, steps: seq<Step>, s: State)
    requires Run(limit, FRESH, steps, s) && Keep !in steps
    ensures s.accepted == Min(s.completed, Max(limit - 1, 0))
    ensures s.count == if s.completed == 0 then 0 else Min(s.completed, limit)
  {
    RunExact(limit, FRESH, steps, s);
  }

  // --- With them ---

  ghost predicate Bounded(limit: int, s: State) {
    s.accepted <= Max(limit - 1, 0) && s.count >= Min(limit, 0) && (limit >= 1 ==> s.accepted <= s.count)
  }

  lemma StepBounded(limit: int, s: State, step: Step)
    requires Bounded(limit, s) && Enabled(s, step)
    ensures Bounded(limit, Apply(limit, s, step))
  {
  }

  lemma {:induction false} RunBounded(limit: int, s0: State, steps: seq<Step>, s: State)
    requires Bounded(limit, s0) && Run(limit, s0, steps, s)
    ensures Bounded(limit, s)
    decreases |steps|
  {
    if steps != [] {
      StepBounded(limit, s0, steps[0]);
      RunBounded(limit, Apply(limit, s0, steps[0]), steps[1..], s);
    }
  }

  /** Samples that are kept unconditionally never let more through: still at most limit - 1 calls return
      true, and the counter is never negative. */
  lemma AcceptedAtMost(limit: int, steps: seq<Step>, s: State)
    requires Run(limit, FRESH, steps, s)
    ensures s.accepted <= Max(limit - 1, 0) && (limit >= 0 ==> s.count >= 0)
  {
    RunBounded(limit, FRESH, steps, s);
  }
}
