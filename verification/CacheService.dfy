/** When the cache serves a notification: exactly which early ones reach it, and how soon a Set is served. */
module CacheService {
  import opened CacheProtocol

  predicate HasRead(pc: WorkerPc) {
    pc == Building || pc == Locking || pc == SwapLibraries || pc == SwapRegions || pc == SwapSymbols || pc == Unlocking
  }

  // What else holds: the published list is never newer than the one read last, and the same outside an
  // update; the instance is set only by a starter that has not given up; only a worker that was told to
  // stop is done.
  ghost predicate Orderly(s: State) {
    && s.h.published <= s.h.read && (!HasRead(s.worker) ==> s.h.published == s.h.read)
    && (s.starter == Idle || s.starter == WaitingFirst || s.starter == Signalled ==> !s.f.stop)
    && (s.f.instance ==> s.starter == Finished && !s.f.stop)
    && (s.worker == Done ==> s.f.stop)
    && (s.worker == NotStarted ==> s.starter == Idle)
  }

  ghost predicate Notified(s: State) {
    s.notifiers != {} ==> s.f.instance
  }

  lemma StepOrderly(u: Setting, s: State, step: Step)
    requires Inv(u, s) && Orderly(s) && Notified(s) && Enabled(u, s, step)
    ensures Orderly(Apply(s, step)) && Notified(Apply(s, step))
  {
    if step == Work { WorkOrderly(s); }
  }

  lemma WorkOrderly(s: State)
    requires Orderly(s) && s.worker != NotStarted && s.h.published < |s.h.loads|
    ensures Orderly(WorkStep(s)) && WorkStep(s).notifiers == s.notifiers && WorkStep(s).f.instance == s.f.instance
  {
  }

  lemma {:induction false} RunOrderly(u: Setting, s0: State, steps: seq<Step>, s: State)
    requires Inv(u, s0) && Orderly(s0) && Notified(s0) && Run(u, s0, steps, s)
    ensures Orderly(s) && Notified(s)
    decreases |steps|
  {
    if steps != [] {
      StepInv(u, s0, steps[0]);
      StepOrderly(u, s0, steps[0]);
      RunOrderly(u, Apply(s0, steps[0]), steps[1..], s);
    }
  }

  lemma ReachableOrderly(u: Setting, s: State)
    requires Reachable(u, s) && u.indexes(Vectors([], [], []))
    ensures Inv(u, s) && Orderly(s) && Notified(s)
  {
    var modules, steps :| u.sound(modules) && Run(u, Init(modules), steps, s);
    ReachableInv(u, s);
    RunOrderly(u, Init(modules), steps, s);
  }

  // --- Which notifications are served without a Set of their own ---

  // Steps that make the worker update once more.
  predicate Wakes(step: Step) {
    step.NotifySet? || step == StartFailSet || step == WaitTimeOut
  }

  predicate Quiet(steps: seq<Step>) {
    forall k :: 0 <= k < |steps| ==> !Wakes(steps[k])
  }

  // The worker is still to read the loader's list, or has read the k-th list or a later one.
  predicate Due(s: State, k: int) {
    s.f.isSet || s.worker == NotStarted || s.worker == AfterWait || s.worker == Reading || s.h.read >= k
  }

  lemma StepDue(u: Setting, s: State, step: Step, k: int)
    requires Inv(u, s) && Enabled(u, s, step) && !Wakes(step) && k < |s.h.loads| && Apply(s, step).worker != Done
    ensures Due(Apply(s, step), k) == Due(s, k) && |s.h.loads| <= |Apply(s, step).h.loads|
  {
    if step == Work { WorkDue(s, k); }
  }

  lemma WorkDue(s: State, k: int)
    requires k < |s.h.loads| && WorkStep(s).worker != Done
    ensures Due(WorkStep(s), k) == Due(s, k)
  {
  }

  lemma {:induction false} DoneStays(u: Setting, s0: State, steps: seq<Step>, s: State)
    requires s0.worker == Done && s0.starter != Idle && Run(u, s0, steps, s)
    ensures s.worker == Done
    decreases |steps|
  {
    if steps != [] { DoneStays(u, Apply(s0, steps[0]), steps[1..], s); }
  }

  lemma {:induction false} RunDue(u: Setting, s0: State, steps: seq<Step>, s: State, k: int)
    requires Inv(u, s0) && Orderly(s0) && Notified(s0) && Run(u, s0, steps, s) && Quiet(steps)
    requires k < |s0.h.loads| && s.worker == Sleeping
    ensures Due(s0, k) <==> s.h.published >= k
    decreases |steps|
  {
    if steps != [] {
      var s1 := Apply(s0, steps[0]);
      StepInv(u, s0, steps[0]);
      StepOrderly(u, s0, steps[0]);
      if s1.worker == Done { DoneStays(u, s1, steps[1..], s); }
      assert !Wakes(steps[0]) && Quiet(steps[1..]);
      StepDue(u, s0, steps[0], k);
      RunDue(u, s1, steps[1..], s, k);
    }
  }

  /** A notification that finds no instance sets nothing. Unless something else wakes the worker, the list it
      was sent for, or a later one, is published when the worker goes to sleep exactly if, when it was sent,
      the event was set, the worker was about to read the list, or had already read it. */
  lemma EarlyNotificationServedExactly(periodic: bool, s0: State, t: nat, steps: seq<Step>, s: State)
    requires Reachable(RealSetting(periodic), s0) && !s0.f.instance && t !in s0.notifiers
    requires Run(RealSetting(periodic), Apply(s0, NotifyBegin(t)), steps, s) && Quiet(steps) && s.worker == Sleeping
    ensures s.h.published >= |s0.h.loads| - 1 <==> Due(s0, |s0.h.loads| - 1)
    ensures 0 <= s.h.published < |s.h.loads| ==> s.cache.libs == s.h.loads[s.h.published]
  {
    var u := RealSetting(periodic);
    RealEmpty(periodic);
    ReachableOrderly(u, s0);
    assert Apply(s0, NotifyBegin(t)) == s0;
    RunDue(u, s0, steps, s, |s0.h.loads| - 1);
    RunInv(u, s0, steps, s);
  }

  // --- How soon a Set is served ---

  predicate IsWork(step: Step) {
    step == Work || step.Build?
  }

  function CountWork(steps: seq<Step>): nat {
    if steps == [] then 0 else (if IsWork(steps[0]) then 1 else 0) + CountWork(steps[1..])
  }

  // The worker's steps from here to the next publication.
  function StepsLeft(pc: WorkerPc): nat {
    match pc
    case Unlocking => 1
    case SwapSymbols => 2
    case SwapRegions => 3
    case SwapLibraries => 4
    case Locking => 5
    case Building => 6
    case Reading => 7
    case AfterWait => 8
    case Testing => 9
    case LoopTop => 10
    case Signalling => 11
    case Clearing => 12
    case _ => 13
  }

  const MOST_STEPS := 18

  // The worker's steps from here to the publication of the k-th list or a later one.
  function Rank(s: State, k: int): (r: nat) {
    if s.h.published >= k then 0
    else StepsLeft(s.worker) + if HasRead(s.worker) && s.h.read < k then 12 else 0
  }

  lemma RankStep(u: Setting, s: State, step: Step, k: int)
    requires Inv(u, s) && Orderly(s) && s.f.instance && k <= s.h.lastSet && Enabled(u, s, step)
    ensures Rank(Apply(s, step), k) <= Rank(s, k)
    ensures IsWork(step) && Rank(s, k) > 0 ==> Rank(Apply(s, step), k) < Rank(s, k)
    ensures k <= Apply(s, step).h.lastSet && Apply(s, step).f.instance
  {
    if step == Work { RankWork(s, k); }
  }

  lemma RankWork(s: State, k: int)
    requires Served(s) && Orderly(s) && s.f.instance && !s.f.stop && k <= s.h.lastSet < |s.h.loads|
    requires s.worker != NotStarted && s.worker != Sleeping && s.worker != Building && s.worker != Done
    ensures Rank(WorkStep(s), k) <= Rank(s, k) && (Rank(s, k) > 0 ==> Rank(WorkStep(s), k) < Rank(s, k))
  {
  }

  lemma {:induction false} RunRank(u: Setting, s0: State, steps: seq<Step>, s: State, k: int)
    requires Inv(u, s0) && Orderly(s0) && Notified(s0) && s0.f.instance && k <= s0.h.lastSet && Run(u, s0, steps, s)
    ensures Rank(s, k) == 0 || Rank(s, k) + CountWork(steps) <= Rank(s0, k)
    decreases |steps|
  {
    if steps != [] {
      StepInv(u, s0, steps[0]);
      StepOrderly(u, s0, steps[0]);
      RankStep(u, s0, steps[0], k);
      RunRank(u, Apply(s0, steps[0]), steps[1..], s, k);
    }
  }

  // While a Set is unserved the worker is never blocked but by a reader that holds the lock.
  lemma WorkerCanStep(u: Setting, s: State, k: int)
    requires Inv(u, s) && Orderly(s) && s.f.instance && k <= s.h.lastSet && s.h.published < k && NoReader(s)
    ensures s.worker == Building || Enabled(u, s, Work)
    ensures Rank(s, k) <= MOST_STEPS
  {
  }

  /** After 18 steps of the worker, whatever the other threads do in between, the list that was current at a
      Set or a later one is published; and until then the worker can take its next step whenever no reader
      holds the lock. */
  lemma SetServedSoon(periodic: bool, s0: State, t: nat, steps: seq<Step>, s: State)
    requires Reachable(RealSetting(periodic), s0) && t in s0.notifiers
    requires Run(RealSetting(periodic), Apply(s0, NotifySet(t)), steps, s)
    ensures CountWork(steps) >= MOST_STEPS ==> s.h.published >= |s0.h.loads| - 1
    ensures s.h.published < |s0.h.loads| - 1 && NoReader(s) ==>
              s.worker == Building || Enabled(RealSetting(periodic), s, Work)
  {
    var u, k := RealSetting(periodic), |s0.h.loads| - 1;
    var s1 := Apply(s0, NotifySet(t));
    RealEmpty(periodic);
    ReachableOrderly(u, s0);
    StepInv(u, s0, NotifySet(t));
    StepOrderly(u, s0, NotifySet(t));
    RunInv(u, s1, steps, s);
    RunOrderly(u, s1, steps, s);
    RunRank(u, s1, steps, s, k);
    if s1.h.published < k { RankBound(s1, k); }
    RankedOut(s1, steps, s, k);
    InstanceStays(u, s1, steps, s);
    if s.h.published < k && NoReader(s) { WorkerCanStep(u, s, k); }
  }

  lemma RankedOut(s0: State, steps: seq<Step>, s: State, k: int)
    requires Rank(s, k) == 0 || Rank(s, k) + CountWork(steps) <= Rank(s0, k)
    requires Rank(s0, k) <= MOST_STEPS
    ensures CountWork(steps) >= MOST_STEPS ==> s.h.published >= k
  {
  }

  lemma InstanceKept(u: Setting, s: State, step: Step)
    requires s.f.instance && Enabled(u, s, step)
    ensures Apply(s, step).f.instance
  {
  }

  lemma {:induction false} InstanceStays(u: Setting, s0: State, steps: seq<Step>, s: State)
    requires s0.f.instance && Run(u, s0, steps, s)
    ensures s.f.instance
    decreases |steps|
  {
    if steps != [] {
      InstanceKept(u, s0, steps[0]);
      InstanceStays(u, Apply(s0, steps[0]), steps[1..], s);
    }
  }

  lemma RankBound(s: State, k: int)
    requires Served(s) && Waking(s) && Orderly(s) && s.f.instance && k <= s.h.lastSet && s.h.published < k
    ensures Rank(s, k) <= MOST_STEPS
  {
  }

  // --- Starting ---

  // How many worker steps there are from here to the signal that the first update is complete.
  function StepsToSignal(pc: WorkerPc): nat {
    match pc
    case LoopTop => 12
    case Testing => 11
    case AfterWait => 10
    case Reading => 9
    case Building => 8
    case Locking => 7
    case SwapLibraries => 6
    case SwapRegions => 5
    case SwapSymbols => 4
    case Unlocking => 3
    case Clearing => 2
    case Signalling => 1
    case _ => 0
  }

  // The starter has not given up; until the worker has signalled, it has not stopped, nor slept, and the event that it
  // was constructed with is still set when it comes to test it; from then on the starter can see the signal.
  ghost predicate Starting(s: State) {
    && (s.starter == WaitingFirst || s.starter == Signalled || (s.starter == Finished && s.f.instance))
    && (s.f.startPending ==>
          && s.starter == WaitingFirst && s.worker != NotStarted && s.worker != Sleeping && s.worker != Done
          && (s.worker == LoopTop || s.worker == Testing ==> s.f.isSet))
    && (s.starter == WaitingFirst ==> s.f.startPending != s.f.startSet)
  }

  function ToSignal(s: State): nat {
    if s.f.startPending then StepsToSignal(s.worker) else 0
  }

  lemma StepStarting(u: Setting, s: State, step: Step)
    requires Inv(u, s) && Orderly(s) && Notified(s) && Starting(s) && Enabled(u, s, step) && step != StartTimeOut
    ensures Starting(Apply(s, step))
    ensures ToSignal(Apply(s, step)) == if IsWork(step) && s.f.startPending then ToSignal(s) - 1 else ToSignal(s)
  {
  }

  lemma {:induction false} RunStarting(u: Setting, s0: State, steps: seq<Step>, s: State)
    requires Inv(u, s0) && Orderly(s0) && Notified(s0) && Starting(s0)
    requires Run(u, s0, steps, s) && StartTimeOut !in steps
    ensures Inv(u, s) && Orderly(s) && Starting(s)
    ensures s.f.startPending ==> s0.f.startPending && ToSignal(s) + CountWork(steps) == ToSignal(s0)
    decreases |steps|
  {
    if steps != [] {
      assert steps[0] in steps;
      StepInv(u, s0, steps[0]);
      StepOrderly(u, s0, steps[0]);
      StepStarting(u, s0, steps[0]);
      RunStarting(u, Apply(s0, steps[0]), steps[1..], s);
    }
  }

  /** A start that does not time out completes: twelve worker steps after it, whatever else happens, a list is published
      and nothing keeps the starting thread from making the cache available; until then the worker can step. */
  lemma StartCompletes(periodic: bool, s0: State, steps: seq<Step>, s: State)
    requires Reachable(RealSetting(periodic), s0) && s0.starter == Idle
    requires Run(RealSetting(periodic), Apply(s0, Start), steps, s) && StartTimeOut !in steps
    ensures s.f.startPending ==>
              CountWork(steps) < 12 && (s.worker == Building || Enabled(RealSetting(periodic), s, Work))
    ensures CountWork(steps) >= 12 ==>
              && s.h.published >= 0
              && (s.starter == WaitingFirst ==>
                    Enabled(RealSetting(periodic), s, StartWake) && Apply(s, StartWake).starter == Signalled)
              && (s.starter == Signalled ==>
                    Enabled(RealSetting(periodic), s, StoreInstance) && Apply(s, StoreInstance).f.instance)
              && (s.starter != WaitingFirst && s.starter != Signalled ==> s.f.instance)
  {
    var u := RealSetting(periodic);
    StartBegins(periodic, s0);
    RunStarting(u, Apply(s0, Start), steps, s);
    if s.f.startPending { StartingSteps(u, s); } else { SignalSeen(u, s); }
  }

  lemma StartBegins(periodic: bool, s: State)
    requires Reachable(RealSetting(periodic), s) && s.starter == Idle
    ensures var u, r := RealSetting(periodic), Apply(s, Start);
            Inv(u, r) && Orderly(r) && Notified(r) && Starting(r) && ToSignal(r) == 12
  {
    var u := RealSetting(periodic);
    RealEmpty(periodic);
    ReachableOrderly(u, s);
    StepInv(u, s, Start);
    StepOrderly(u, s, Start);
    var modules, steps :| u.sound(modules) && Run(u, Init(modules), steps, s);
    RunPending(u, Init(modules), steps, s);
  }

  // The signal is given once: it is either still to come or has come.
  lemma {:induction false} RunPending(u: Setting, s0: State, steps: seq<Step>, s: State)
    requires Run(u, s0, steps, s) && !(s0.f.startPending && s0.f.startSet)
    ensures !(s.f.startPending && s.f.startSet)
    decreases |steps|
  {
    if steps != [] {
      PendingKept(s0, steps[0]);
      RunPending(u, Apply(s0, steps[0]), steps[1..], s);
    }
  }

  lemma PendingKept(s: State, step: Step)
    requires !(s.f.startPending && s.f.startSet)
    ensures !(Apply(s, step).f.startPending && Apply(s, step).f.startSet)
  {
  }

  lemma StartingSteps(u: Setting, s: State)
    requires Inv(u, s) && Orderly(s) && Starting(s) && s.f.startPending
    ensures ToSignal(s) > 0 && (s.worker == Building || Enabled(u, s, Work))
  {
    assert s.readers == map[];
  }

  lemma SignalSeen(u: Setting, s: State)
    requires Inv(u, s) && Starting(s) && !s.f.startPending
    ensures s.h.published >= 0
    ensures s.starter == WaitingFirst ==> Enabled(u, s, StartWake) && Apply(s, StartWake).starter == Signalled
    ensures s.starter == Signalled ==> Enabled(u, s, StoreInstance) && Apply(s, StoreInstance).f.instance
    ensures s.starter != WaitingFirst && s.starter != Signalled ==> s.f.instance
  {
  }

  /** Once the cache is available, a thread that looks it up gets the lock as soon as the worker does not hold it, and a
      notification sets the event with the current list. */
  lemma AvailableServes(u: Setting, s: State, t: nat)
    requires s.f.instance && t !in s.readers && t !in s.notifiers
    ensures Enabled(u, s, Arrive(t)) && (!Exclusive(s) ==> Enabled(u, Apply(s, Arrive(t)), ReadLock(t)))
    ensures Enabled(u, s, NotifyBegin(t)) && Enabled(u, Apply(s, NotifyBegin(t)), NotifySet(t))
    ensures var r := Apply(Apply(s, NotifyBegin(t)), NotifySet(t));
            r.f.isSet && r.worker != Sleeping && r.h.lastSet == |s.h.loads| - 1
  {
  }
}
