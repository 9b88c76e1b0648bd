/** The libraries cache under concurrency: the worker, its event, the starting thread, threads that load
    libraries and notify, and signal-handler readers, interleaved step by step until shutdown. */
module CacheProtocol {
  import opened SymbolCache
  import opened SymbolScan

  // Where the worker is: waiting on the event from Testing to Sleeping, holding the lock exclusively
  // from SwapLibraries to Unlocking.
  datatype WorkerPc = NotStarted | LoopTop | Testing | Sleeping | AfterWait | Reading | Building | Locking |
                      SwapLibraries | SwapRegions | SwapSymbols | Unlocking | Clearing | Signalling | Done

  datatype StarterPc = Idle | WaitingFirst | Signalled | TimedOut | Finished

  datatype ReaderPc = Arrived | Reader

  /** One set of the three vectors. */
  datatype Vectors = Vectors(libs: seq<Module>, regions: seq<Region>, symbols: seq<Entry>)

  /** The worker's event, the start event (pending until the worker drops it), and the two atomics. */
  datatype Flags = Flags(isSet: bool, startPending: bool, startSet: bool, stop: bool, instance: bool)

  /** What has happened: the module lists the loader has had, in order; which of them the last update
      read, which is published (-1 before the first), and which was current at the last Set. */
  datatype History = History(loads: seq<seq<Module>>, read: int, published: int, lastSet: int)

  datatype State = State(cache: Vectors, staged: Vectors, f: Flags, worker: WorkerPc, starter: StarterPc,
                         readers: map<nat, ReaderPc>, notifiers: set<nat>, h: History)

  datatype Step =
    | Load(modules: seq<Module>)
    | NotifyBegin(t: nat)
    | NotifySet(t: nat)
    | Start
    | StartWake
    | StartTimeOut
    | StartFailSet
    | StoreInstance
    | Arrive(t: nat)
    | ReadLock(t: nat)
    | ReadUnlock(t: nat)
    | Work
    | Build(regions: seq<Region>, symbols: seq<Entry>)
    | SpuriousWake
    | WaitTimeOut

  /** Whether the worker waits with a timeout (no wrapper library), what the loader guarantees of its
      lists, and what building an index guarantees. */
  datatype Setting = Setting(periodic: bool, sound: seq<Module> -> bool, indexes: Vectors -> bool)

  predicate NoReader(s: State) {
    forall t :: t in s.readers ==> s.readers[t] != Reader
  }

  predicate Exclusive(s: State) {
    s.worker == SwapLibraries || s.worker == SwapRegions || s.worker == SwapSymbols || s.worker == Unlocking
  }

  predicate Enabled(u: Setting, s: State, step: Step) {
    match step
    case Load(modules) => u.sound(modules)
    case NotifyBegin(t) => t !in s.notifiers
    case NotifySet(t) => t in s.notifiers
    case Start => s.starter == Idle
    case StartWake => s.starter == WaitingFirst && s.f.startSet
    case StartTimeOut => s.starter == WaitingFirst && !s.f.startSet
    case StartFailSet => s.starter == TimedOut
    case StoreInstance => s.starter == Signalled
    case Arrive(t) => t !in s.readers
    case ReadLock(t) => t in s.readers && s.readers[t] == Arrived && !Exclusive(s)
    case ReadUnlock(t) => t in s.readers && s.readers[t] == Reader
    case Work =>
      && s.worker != NotStarted && s.worker != Sleeping && s.worker != Building && s.worker != Done
      && (s.worker == Locking ==> NoReader(s))
    case Build(regions, symbols) => s.worker == Building && u.indexes(Vectors(s.staged.libs, regions, symbols))
    case SpuriousWake => s.worker == Sleeping
    case WaitTimeOut => u.periodic && s.worker == Sleeping
  }

  // Set: the flag, and the signal that wakes a sleeping worker, in one critical section.
  function SetEvent(s: State): State {
    s.(f := s.f.(isSet := true), worker := if s.worker == Sleeping then Testing else s.worker,
       h := s.h.(lastSet := |s.h.loads| - 1))
  }

  function Apply(s: State, step: Step): State {
    match step
    case Load(modules) => s.(h := s.h.(loads := s.h.loads + [modules]))
    case NotifyBegin(t) => if s.f.instance then s.(notifiers := s.notifiers + {t}) else s
    case NotifySet(t) => SetEvent(s.(notifiers := s.notifiers - {t}))
    case Start => s.(starter := WaitingFirst, worker := LoopTop)
    case StartWake => s.(starter := Signalled, f := s.f.(startSet := false))
    case StartTimeOut => s.(starter := TimedOut, f := s.f.(stop := true))
    case StartFailSet => SetEvent(s.(starter := Finished))
    case StoreInstance => s.(starter := Finished, f := s.f.(instance := true))
    case Arrive(t) => if s.f.instance then s.(readers := s.readers[t := Arrived]) else s
    case ReadLock(t) => s.(readers := s.readers[t := Reader])
    case ReadUnlock(t) => s.(readers := s.readers - {t})
    case Work => WorkStep(s)
    case Build(regions, symbols) => s.(staged := Vectors(s.staged.libs, regions, symbols), worker := Locking)
    case SpuriousWake => s.(worker := Testing)
    case WaitTimeOut => s.(f := s.f.(isSet := false), worker := AfterWait)
  }

  function Current(h: History): seq<Module> {
    if h.loads == [] then [] else h.loads[|h.loads| - 1]
  }

  function WorkStep(s: State): State {
    match s.worker
    case LoopTop => s.(worker := if s.f.stop then Done else Testing)
    case Testing => if s.f.isSet then s.(f := s.f.(isSet := false), worker := AfterWait) else s.(worker := Sleeping)
    case AfterWait => s.(worker := if s.f.stop then Done else Reading)
    case Reading =>
      s.(staged := Vectors(s.staged.libs + Current(s.h), [], []), h := s.h.(read := |s.h.loads| - 1),
         worker := Building)
    case Locking => s.(worker := SwapLibraries)
    case SwapLibraries =>
      s.(cache := s.cache.(libs := s.staged.libs), staged := s.staged.(libs := s.cache.libs), worker := SwapRegions)
    case SwapRegions =>
      s.(cache := s.cache.(regions := s.staged.regions), staged := s.staged.(regions := s.cache.regions),
         worker := SwapSymbols)
    case SwapSymbols =>
      s.(cache := s.cache.(symbols := s.staged.symbols), staged := s.staged.(symbols := s.cache.symbols),
         worker := Unlocking)
    case Unlocking => s.(h := s.h.(published := s.h.read), worker := Clearing)
    case Clearing => s.(staged := Vectors([], [], []), worker := Signalling)
    case Signalling =>
      s.(f := s.f.(startSet := s.f.startSet || s.f.startPending, startPending := false), worker := LoopTop)
    case _ => s
  }

  ghost predicate Run(u: Setting, s0: State, steps: seq<Step>, s: State)
    decreases |steps|
  {
    if steps == [] then s == s0
    else Enabled(u, s0, steps[0]) && Run(u, Apply(s0, steps[0]), steps[1..], s)
  }

  // The event is constructed set, so that the worker fills the cache at once.
  function Init(modules: seq<Module>): State {
    State(Vectors([], [], []), Vectors([], [], []), Flags(true, true, false, false, false), NotStarted, Idle,
          map[], {}, History([modules], -1, -1, -1))
  }

  ghost predicate Reachable(u: Setting, s: State) {
    exists modules, steps :: u.sound(modules) && Run(u, Init(modules), steps, s)
  }

  /** The loader places code without overlap and holds fewer than 2^32 symbols; BuildSymbolCache
      returns an index of the list it is given. */
  ghost function RealSetting(periodic: bool): Setting {
    Setting(periodic,
            (modules: seq<Module>) => WellPlaced(modules) && SymbolTotal(modules) < LIMIT32,
            (v: Vectors) => Indexes(v.regions, v.symbols, v.libs))
  }

  // --- Invariant ---

  ghost predicate Counted(u: Setting, h: History) {
    && |h.loads| > 0 && (forall v :: 0 <= v < |h.loads| ==> u.sound(h.loads[v]))
    && -1 <= h.published < |h.loads| && -1 <= h.lastSet < |h.loads| && -1 <= h.read < |h.loads|
  }

  ghost predicate ListAt(h: History, v: int, libs: seq<Module>) {
    if 0 <= v < |h.loads| then libs == h.loads[v] else libs == []
  }

  // The vectors hold an index of the v-th list.
  ghost predicate OneUpdate(u: Setting, h: History, v: int, c: Vectors) {
    u.indexes(c) && ListAt(h, v, c.libs)
  }

  ghost predicate Snapshots(u: Setting, s: State) {
    match s.worker
    case Building => OneUpdate(u, s.h, s.h.published, s.cache) && 0 <= s.h.read && ListAt(s.h, s.h.read, s.staged.libs)
    case Locking => OneUpdate(u, s.h, s.h.published, s.cache) && 0 <= s.h.read && OneUpdate(u, s.h, s.h.read, s.staged)
    case SwapLibraries =>
      OneUpdate(u, s.h, s.h.published, s.cache) && 0 <= s.h.read && OneUpdate(u, s.h, s.h.read, s.staged)
    case SwapRegions =>
      0 <= s.h.read && OneUpdate(u, s.h, s.h.read, Vectors(s.cache.libs, s.staged.regions, s.staged.symbols))
    case SwapSymbols =>
      0 <= s.h.read && OneUpdate(u, s.h, s.h.read, Vectors(s.cache.libs, s.cache.regions, s.staged.symbols))
    case Unlocking => 0 <= s.h.read && OneUpdate(u, s.h, s.h.read, s.cache)
    case Clearing => OneUpdate(u, s.h, s.h.published, s.cache)
    case _ => OneUpdate(u, s.h, s.h.published, s.cache) && s.staged.libs == []
  }

  ghost predicate Exclusion(s: State) {
    (Exclusive(s) ==> NoReader(s)) && (s.readers != map[] ==> s.f.instance)
  }

  ghost predicate StartedAfterUpdate(s: State) {
    && (s.starter == Idle ==> s.worker == NotStarted) && (s.worker == NotStarted ==> s.f.isSet && s.f.startPending)
    && (s.f.instance || s.f.startSet || s.starter == Signalled || !s.f.startPending ==> s.h.published >= 0)
    && (s.worker == Clearing || s.worker == Signalling ==> s.h.published >= 0)
    && (s.worker == Unlocking ==> s.h.read >= 0)
  }

  // No Set is left unserved where the worker could sleep through it.
  ghost predicate Served(s: State) {
    !s.f.isSet ==>
      match s.worker
      case AfterWait | Reading | Done => true
      case Building | Locking | SwapLibraries | SwapRegions | SwapSymbols | Unlocking => s.h.read >= s.h.lastSet
      case _ => s.h.published >= s.h.lastSet
  }

  ghost predicate Waking(s: State) {
    s.worker == Sleeping ==> !s.f.isSet
  }

  ghost predicate Inv(u: Setting, s: State) {
    Counted(u, s.h) && Snapshots(u, s) && Exclusion(s) && StartedAfterUpdate(s) && Served(s) && Waking(s)
  }

  // --- Every step keeps it ---

  lemma StepCounted(u: Setting, s: State, step: Step)
    requires Counted(u, s.h) && Enabled(u, s, step)
    ensures Counted(u, Apply(s, step).h)
  {
  }

  lemma LaterList(h: History, modules: seq<Module>, v: int, libs: seq<Module>)
    requires -1 <= v < |h.loads| && ListAt(h, v, libs)
    ensures ListAt(h.(loads := h.loads + [modules]), v, libs)
  {
  }

  lemma StepSnapshots(u: Setting, s: State, step: Step)
    requires Counted(u, s.h) && Snapshots(u, s) && Enabled(u, s, step) && (step == Start ==> s.worker == NotStarted)
    ensures Snapshots(u, Apply(s, step))
  {
    match step
    case Work => WorkSnapshots(u, s);
    case Load(modules) =>
      forall v: int, libs | -1 <= v < |s.h.loads| && ListAt(s.h, v, libs)
        ensures ListAt(s.h.(loads := s.h.loads + [modules]), v, libs) { LaterList(s.h, modules, v, libs); }
    case _ =>
  }

  lemma WorkSnapshots(u: Setting, s: State)
    requires Counted(u, s.h) && Snapshots(u, s) && Enabled(u, s, Work)
    ensures Snapshots(u, WorkStep(s))
  {
    if s.worker == Reading { assert [] + Current(s.h) == Current(s.h); }
  }

  lemma StepExclusion(u: Setting, s: State, step: Step)
    requires Exclusion(s) && Enabled(u, s, step)
    ensures Exclusion(Apply(s, step))
  {
  }

  lemma StepStarted(u: Setting, s: State, step: Step)
    requires Counted(u, s.h) && Snapshots(u, s) && StartedAfterUpdate(s) && Enabled(u, s, step)
    ensures StartedAfterUpdate(Apply(s, step))
  {
    if step == Work { WorkStarted(u, s); }
  }

  lemma WorkStarted(u: Setting, s: State)
    requires Counted(u, s.h) && Snapshots(u, s) && StartedAfterUpdate(s) && Enabled(u, s, Work)
    ensures StartedAfterUpdate(WorkStep(s))
  {
  }

  lemma StepServed(u: Setting, s: State, step: Step)
    requires Counted(u, s.h) && StartedAfterUpdate(s) && Served(s) && Waking(s) && Enabled(u, s, step)
    ensures Served(Apply(s, step)) && Waking(Apply(s, step))
  {
    if step == Work { WorkServed(u, s); }
  }

  lemma WorkServed(u: Setting, s: State)
    requires Counted(u, s.h) && Served(s) && Enabled(u, s, Work)
    ensures Served(WorkStep(s)) && Waking(WorkStep(s))
  {
  }

  lemma StepInv(u: Setting, s: State, step: Step)
    requires Inv(u, s) && Enabled(u, s, step)
    ensures Inv(u, Apply(s, step))
  {
    StepCounted(u, s, step);
    StepSnapshots(u, s, step);
    StepExclusion(u, s, step);
    StepStarted(u, s, step);
    StepServed(u, s, step);
  }

  lemma StepForward(u: Setting, s: State, step: Step)
    requires Counted(u, s.h)
    ensures |s.h.loads| <= |Apply(s, step).h.loads| && s.h.lastSet <= Apply(s, step).h.lastSet
  {
  }

  lemma {:induction false} RunInv(u: Setting, s0: State, steps: seq<Step>, s: State)
    requires Inv(u, s0) && Run(u, s0, steps, s)
    ensures Inv(u, s) && |s0.h.loads| <= |s.h.loads| && s0.h.lastSet <= s.h.lastSet
    decreases |steps|
  {
    if steps != [] {
      StepInv(u, s0, steps[0]);
      StepForward(u, s0, steps[0]);
      RunInv(u, Apply(s0, steps[0]), steps[1..], s);
    }
  }

  lemma ReachableInv(u: Setting, s: State)
    requires Reachable(u, s) && u.indexes(Vectors([], [], []))
    ensures Inv(u, s)
  {
    var modules, steps :| u.sound(modules) && Run(u, Init(modules), steps, s);
    RunInv(u, Init(modules), steps, s);
  }

  lemma RealEmpty(periodic: bool)
    ensures RealSetting(periodic).indexes(Vectors([], [], []))
  {
    assert Indexes([], [], []);
  }

  // --- What the steps promise ---

  /** A Set is never slept through: whenever the worker sleeps after it, the published list is the
      loader's list at the Set or a later one. */
  lemma NoSetLost(periodic: bool, s0: State, t: nat, steps: seq<Step>, s: State) returns (v: nat)
    requires Reachable(RealSetting(periodic), s0) && t in s0.notifiers
    requires Run(RealSetting(periodic), Apply(s0, NotifySet(t)), steps, s) && s.worker == Sleeping
    ensures |s0.h.loads| - 1 <= v < |s.h.loads| && s.cache.libs == s.h.loads[v]
    ensures Indexes(s.cache.regions, s.cache.symbols, s.cache.libs)
  {
    var u := RealSetting(periodic);
    RealEmpty(periodic);
    ReachableInv(u, s0);
    StepInv(u, s0, NotifySet(t));
    RunInv(u, Apply(s0, NotifySet(t)), steps, s);
    v := s.h.published;
  }

  /** A sleeping worker has nothing to do, and a Set wakes it. */
  lemma SleepsOnlyUnset(periodic: bool, s: State, t: nat)
    requires Reachable(RealSetting(periodic), s) && s.worker == Sleeping && t in s.notifiers
    ensures !s.f.isSet && Apply(s, NotifySet(t)).worker == Testing && Apply(s, NotifySet(t)).f.isSet
  {
    RealEmpty(periodic);
    ReachableInv(RealSetting(periodic), s);
  }

  /** The instance is set only when an update has been completed. */
  lemma InstanceAfterUpdate(periodic: bool, s: State)
    requires Reachable(RealSetting(periodic), s) && s.f.instance
    ensures 0 <= s.h.published < |s.h.loads|
  {
    RealEmpty(periodic);
    ReachableInv(RealSetting(periodic), s);
  }

  /** What a reader holding the lock sees: libraries, regions and symbols of one single update. */
  lemma ReaderSeesOneUpdate(periodic: bool, s: State, t: nat) returns (v: nat)
    requires Reachable(RealSetting(periodic), s) && t in s.readers && s.readers[t] == Reader
    ensures v < |s.h.loads| && s.cache.libs == s.h.loads[v]
    ensures Indexes(s.cache.regions, s.cache.symbols, s.h.loads[v]) && WellPlaced(s.h.loads[v])
  {
    RealEmpty(periodic);
    ReachableInv(RealSetting(periodic), s);
    assert !Exclusive(s);
    v := s.h.published;
    assert RealSetting(periodic).sound(s.h.loads[v]);
  }

  /** Nothing changes under a reader, whoever takes the step. */
  lemma ReaderUndisturbed(periodic: bool, s: State, step: Step, t: nat)
    requires Reachable(RealSetting(periodic), s) && Enabled(RealSetting(periodic), s, step)
    requires t in s.readers && s.readers[t] == Reader
    ensures Apply(s, step).cache == s.cache
  {
    RealEmpty(periodic);
    ReachableInv(RealSetting(periodic), s);
    assert !Exclusive(s);
  }

  // --- A notification before the instance is set ---

  lemma {:induction false} Then(u: Setting, s0: State, steps: seq<Step>, s: State, step: Step)
    requires Run(u, s0, steps, s) && Enabled(u, s, step)
    ensures Run(u, s0, steps + [step], Apply(s, step))
    decreases |steps|
  {
    if steps == [] {
      assert Run(u, Apply(s0, step), [], Apply(s, step));
    } else {
      Then(u, Apply(s0, steps[0]), steps[1..], s, step);
      assert (steps + [step])[1..] == steps[1..] + [step];
    }
  }

  // The worker alone takes n steps, none of which waits for anything.
  lemma {:induction false} Works(u: Setting, s0: State, steps: seq<Step>, s: State, n: nat) returns (steps': seq<Step>)
    requires Run(u, s0, steps, s) && CanWork(s, n)
    ensures Run(u, s0, steps', AfterWork(s, n)) && steps <= steps'
    decreases n
  {
    steps' := steps;
    if n > 0 {
      Then(u, s0, steps, s, Work);
      steps' := Works(u, s0, steps + [Work], WorkStep(s), n - 1);
    }
  }

  function AfterWork(s: State, n: nat): State
    decreases n
  {
    if n == 0 then s else AfterWork(WorkStep(s), n - 1)
  }

  predicate CanWork(s: State, n: nat)
    decreases n
  {
    n == 0 || (s.worker != NotStarted && s.worker != Sleeping && s.worker != Building && s.worker != Done
               && s.readers == map[] && CanWork(WorkStep(s), n - 1))
  }

  /** It changes nothing; and the list the library is in may be newer than the one the worker has read, so
      that the worker goes to sleep on the older list. */
  lemma EarlyNotificationDropped(older: seq<Module>, newer: seq<Module>, regions: seq<Region>, symbols: seq<Entry>)
    returns (steps: seq<Step>, s: State)
    requires WellPlaced(older) && SymbolTotal(older) < LIMIT32 && WellPlaced(newer) && SymbolTotal(newer) < LIMIT32
    requires Indexes(regions, symbols, older)
    ensures Run(RealSetting(false), Init(older), steps, s) &&
            [Start, Work, Work, Work, Work, Load(newer), NotifyBegin(0)] <= steps
    ensures s.worker == Sleeping && s.cache.libs == older && s.h.loads == [older, newer]
  {
    steps, s := DroppedRun(RealSetting(false), older, newer, regions, symbols);
  }

  lemma {:induction false} DroppedRun(u: Setting, older: seq<Module>, newer: seq<Module>, regions: seq<Region>,
                                      symbols: seq<Entry>)
    returns (steps: seq<Step>, s: State)
    requires u.sound(newer) && u.indexes(Vectors(older, regions, symbols))
    ensures Run(u, Init(older), steps, s) && [Start, Work, Work, Work, Work, Load(newer), NotifyBegin(0)] <= steps
    ensures s.worker == Sleeping && s.cache.libs == older && s.h.loads == [older, newer]
  {
    var s1 := Apply(Init(older), Start);
    var s2 := s1.(f := s1.f.(isSet := false), worker := Building, staged := Vectors(older, [], []),
                  h := s1.h.(read := 0));
    var s3 := s2.(h := s2.h.(loads := [older, newer]));
    var a, b := [Start, Work, Work, Work, Work], [Start, Work, Work, Work, Work, Load(newer), NotifyBegin(0)];
    FirstUpdateReads(u, older, s1, s2);
    LoadUnheard(u, Init(older), a, s2, newer, s3);
    assert a + [Load(newer)] + [NotifyBegin(0)] == b;
    steps, s := BuiltAndAsleep(u, Init(older), b, s3, regions, symbols);
  }

  // The rest of the first update, when nothing has set the event.
  lemma BuiltAndAsleep(u: Setting, s0: State, b: seq<Step>, s3: State, regions: seq<Region>, symbols: seq<Entry>)
    returns (steps: seq<Step>, s: State)
    requires Run(u, s0, b, s3) && s3.worker == Building && u.indexes(Vectors(s3.staged.libs, regions, symbols))
    requires !s3.f.stop && !s3.f.isSet && s3.readers == map[]
    ensures Run(u, s0, steps, s) && b <= steps
    ensures s.worker == Sleeping && s.cache.libs == s3.staged.libs && s.h.loads == s3.h.loads
  {
    var s4 := s3.(staged := Vectors(s3.staged.libs, regions, symbols), worker := Locking);
    Then(u, s0, b, s3, Build(regions, symbols));
    FirstUpdateEnds(s4);
    steps := Works(u, s0, b + [Build(regions, symbols)], s4, 9);
    s := AfterWork(s4, 9);
  }

  lemma LoadUnheard(u: Setting, s0: State, steps: seq<Step>, s: State, newer: seq<Module>, s': State)
    requires Run(u, s0, steps, s) && u.sound(newer) && !s.f.instance && s.notifiers == {}
    requires s' == s.(h := s.h.(loads := s.h.loads + [newer]))
    ensures Run(u, s0, steps + [Load(newer)] + [NotifyBegin(0)], s')
  {
    Then(u, s0, steps, s, Load(newer));
    Then(u, s0, steps + [Load(newer)], s', NotifyBegin(0));
  }

  lemma {:induction false} FirstUpdateReads(u: Setting, older: seq<Module>, s1: State, s2: State)
    requires s1 == Apply(Init(older), Start)
    requires s2 ==
             s1.(f := s1.f.(isSet := false), worker := Building, staged := Vectors(older, [], []),
                 h := s1.h.(read := 0))
    ensures Run(u, Init(older), [Start, Work, Work, Work, Work], s2)
  {
    var s0 := Init(older);
    assert Run(u, s0, [], s0);
    Then(u, s0, [], s0, Start);
    Then(u, s0, [Start], s1, Work);
    var a := s1.(worker := Testing);
    Then(u, s0, [Start, Work], a, Work);
    var b := a.(f := a.f.(isSet := false), worker := AfterWait);
    ReadsNext(u, s0, [Start, Work, Work], b, older, s2);
  }

  lemma ReadsNext(u: Setting, s0: State, steps: seq<Step>, b: State, older: seq<Module>, s2: State)
    requires Run(u, s0, steps, b) && b.worker == AfterWait && !b.f.stop && b.staged.libs == [] && b.h.loads == [older]
    requires s2 == b.(worker := Building, staged := Vectors(older, [], []), h := b.h.(read := 0))
    ensures Run(u, s0, steps + [Work, Work], s2)
  {
    Then(u, s0, steps, b, Work);
    Then(u, s0, steps + [Work], b.(worker := Reading), Work);
    assert [] + older == older;
    assert steps + [Work] + [Work] == steps + [Work, Work];
  }

  // Locking and the three swaps.
  lemma Swaps(s: State)
    requires s.worker == Locking && s.readers == map[]
    ensures CanWork(s, 2) && CanWork(WorkStep(WorkStep(s)), 2)
    ensures WorkStep(WorkStep(WorkStep(WorkStep(s)))) == s.(cache := s.staged, staged := s.cache, worker := Unlocking)
  {
  }

  // From the unlocking to sleep.
  lemma ToSleep(s: State)
    requires s.worker == Unlocking && !s.f.stop && !s.f.isSet && s.readers == map[]
    ensures CanWork(s, 5) && AfterWork(s, 5).worker == Sleeping
    ensures AfterWork(s, 5).cache == s.cache && AfterWork(s, 5).h.loads == s.h.loads
  {
    var a := WorkStep(WorkStep(s));
    var b := WorkStep(WorkStep(a));
    assert b.worker == Testing && CanWork(b, 1) && AfterWork(b, 1) == WorkStep(b);
    TwoMore(a, 1);
    TwoMore(s, 3);
  }

  lemma FirstUpdateEnds(s: State)
    requires s.worker == Locking && !s.f.stop && !s.f.isSet && s.readers == map[]
    ensures CanWork(s, 9) && AfterWork(s, 9).worker == Sleeping
    ensures AfterWork(s, 9).cache == s.staged && AfterWork(s, 9).h.loads == s.h.loads
  {
    Swaps(s);
    ToSleep(s.(cache := s.staged, staged := s.cache, worker := Unlocking));
    TwoMore(WorkStep(WorkStep(s)), 5);
    TwoMore(s, 7);
  }

  lemma TwoMore(s: State, n: nat)
    requires CanWork(s, 2) && CanWork(WorkStep(WorkStep(s)), n)
    ensures CanWork(s, n + 2) && AfterWork(s, n + 2) == AfterWork(WorkStep(WorkStep(s)), n)
  {
    assert CanWork(WorkStep(s), n + 1);
  }
}
