/** The trace of a call: how many finish events it holds, how long it is, and whether the finish is among
    the events the recorder keeps. */
module UnwinderTrace {
  import opened Collections
  import opened Words
  import opened Unwinder

  // --- How many finish events a trace holds ---

  function Finishes(log: seq<TraceEvent>): nat {
    if log == [] then 0
    else Finishes(log[..|log| - 1]) + if log[|log| - 1].Finish? then 1 else 0
  }

  lemma FinishesAppend(log: seq<TraceEvent>, e: TraceEvent)
    ensures Finishes(log + [e]) == Finishes(log) + if e.Finish? then 1 else 0
  {
    assert (log + [e])[..|log|] == log;
  }

  // What one frame record adds: nothing while the walk goes on, two when the buffer is full, one otherwise.
  lemma OneFrameFinishes(w: World, fp: Word, cap: nat, native: nat, stack: seq<Word>, log: seq<TraceEvent>)
    ensures var t := OneFrame(w, fp, cap, native, stack, log);
            && (t.Go? ==> Finishes(t.log) == Finishes(log))
            && (t.Over? ==> Finishes(t.r.log) == Finishes(log) + if OutOfRoom(w, fp, cap, stack) then 2 else 1)
  {
    var ip := ReturnIp(w, fp);
    var log1 := log + [FrameChainStep(ip, fp)];
    FinishesAppend(log, FrameChainStep(ip, fp));
    if ip == 0 {
      FinishedAddsOne(stack, log, fp, Success);
    } else if OutOfRoom(w, fp, cap, stack) {
      FinishesAppend(log1, Finish(|stack|, BufferFull));
      FinishedAddsOne(stack, log1 + [Finish(|stack|, BufferFull)], fp, Success);
    } else {
      FinishedAddsOne(stack + FrameOf(w, fp), log1, fp, TooManyNativeFrames);
      FinishedAddsOne(stack + FrameOf(w, fp), log1, fp, InvalidFp);
      assert stack + [] == stack;
    }
  }

  lemma FinishedAddsOne(stack: seq<Word>, log: seq<TraceEvent>, fp: Word, reason: Reason)
    ensures Finishes(Finished(stack, log, fp, reason).log) == Finishes(log) + 1
  {
    FinishesAppend(log, Finish(|stack|, reason));
  }

  // The frame is to be recorded and there is no room for it.
  predicate OutOfRoom(w: World, fp: Word, cap: nat, stack: seq<Word>) {
    FrameOf(w, fp) != [] && |stack| >= cap
  }

  /** The walk along the chain leaves two finish events exactly when one more slot would have held one more
      frame, and one otherwise. */
  lemma {:induction false} WalkFinishes(w: World, fp: Word, cap: nat, native: nat, stack: seq<Word>,
                                        log: seq<TraceEvent>)
    requires fp != 0 && |stack| <= cap
    ensures Finishes(Walk(w, fp, cap, native, stack, log).log) ==
            Finishes(log) + if |Walk(w, fp, cap + 1, native, stack, log).stack| > cap then 2 else 1
    decreases WORD - fp
  {
    var t, m := OneFrame(w, fp, cap, native, stack, log), OneFrame(w, fp, cap + 1, native, stack, log);
    OneFrameFinishes(w, fp, cap, native, stack, log);
    OneMoreSlot(w, fp, cap, native, stack, log);
    if t.Go? {
      WalkFinishes(w, t.next, cap, t.native, t.stack, t.log);
    } else if m.Go? {
      WalkBounded(w, m.next, cap + 1, m.native, m.stack, m.log);
    }
  }

  // One slot more makes a difference to one frame exactly when there was no room for it.
  lemma OneMoreSlot(w: World, fp: Word, cap: nat, native: nat, stack: seq<Word>, log: seq<TraceEvent>)
    requires |stack| <= cap
    ensures var t, m := OneFrame(w, fp, cap, native, stack, log), OneFrame(w, fp, cap + 1, native, stack, log);
            if OutOfRoom(w, fp, cap, stack) then t.Over? && |if m.Go? then m.stack else m.r.stack| == cap + 1
            else m == t && |if t.Go? then t.stack else t.r.stack| <= cap
  {
  }

  // The managed phase follows the chain: the first frame was recorded and its frame pointer is accepted.
  predicate FollowsChain(w: World, r: Regs, cap: nat, stack: seq<Word>) {
    r.getIp == 0 && r.ip != 0 && |stack| < cap && r.getFp == 0 && IsValidFp(r.fp, 0, w.stackBase, w.stackEnd)
  }

  // The chain from there holds one frame more than fits.
  predicate ChainOverflows(w: World, r: Regs, cap: nat, stack: seq<Word>)
    requires r.fp != 0
  {
    |Walk(w, r.fp, cap + 1, 0, stack + [r.ip], []).stack| > cap
  }

  lemma {:induction false} WalkIgnoresLog(w: World, fp: Word, cap: nat, native: nat, stack: seq<Word>,
                                          log: seq<TraceEvent>, log': seq<TraceEvent>)
    requires fp != 0
    ensures Walk(w, fp, cap, native, stack, log).stack == Walk(w, fp, cap, native, stack, log').stack
    decreases WORD - fp
  {
    var t, t' := OneFrame(w, fp, cap, native, stack, log), OneFrame(w, fp, cap, native, stack, log');
    if t.Go? { WalkIgnoresLog(w, t.next, cap, t.native, t.stack, t.log, t'.log); }
  }

  lemma ManagedFinishes(w: World, lib: Libunwind, r: Regs, cap: nat, stack: seq<Word>, log: seq<TraceEvent>)
    requires |stack| <= cap
    ensures Finishes(ManagedWalk(w, lib, r, cap, stack, log).log) ==
            Finishes(log) + if FollowsChain(w, r, cap, stack) && ChainOverflows(w, r, cap, stack) then 2 else 1
  {
    if FollowsChain(w, r, cap, stack) {
      ChainFinishes(w, r.fp, cap, stack + [r.ip], log);
    } else {
      NoChainFinishes(w, lib, r, cap, stack, log);
    }
  }

  lemma ChainFinishes(w: World, fp: Word, cap: nat, stack: seq<Word>, log: seq<TraceEvent>)
    requires fp != 0 && |stack| <= cap
    ensures Finishes(Walk(w, fp, cap, 0, stack, log).log) ==
            Finishes(log) + if |Walk(w, fp, cap + 1, 0, stack, []).stack| > cap then 2 else 1
  {
    var more, bare := Walk(w, fp, cap + 1, 0, stack, log), Walk(w, fp, cap + 1, 0, stack, []);
    assert more.stack == bare.stack by { WalkIgnoresLog(w, fp, cap + 1, 0, stack, log, []); }
    WalkFinishes(w, fp, cap, 0, stack, log);
  }

  lemma NoChainFinishes(w: World, lib: Libunwind, r: Regs, cap: nat, stack: seq<Word>, log: seq<TraceEvent>)
    requires !FollowsChain(w, r, cap, stack)
    ensures Finishes(ManagedWalk(w, lib, r, cap, stack, log).log) == Finishes(log) + 1
  {
    FinishesAppend(log, Finish(lib.ipRegister, FailedGetReg));
    FinishesAppend(log, Finish(|stack|, BufferFull));
    FinishesAppend(log, Finish(r.getFp, InvalidFp));
  }

  lemma OneNativeFinishes(w: World, lib: Libunwind, r: Regs, cap: nat, stack: seq<Word>, log: seq<TraceEvent>)
    ensures var (turn, _, log1) := OneNative(w, lib, r, cap, stack, log);
            Finishes(log1) == Finishes(log) + if turn == Ended(false) then 1 else 0
  {
    if r.getIp == 0 && r.ip >= MIN_NATIVE_IP && w.managed(r.ip) == Some(false) {
      NativeFrameFinishes(w, lib, r, cap, stack, log);
    } else {
      var (_, stack1, _) := OneNative(w, lib, r, cap, stack, log);
      FinishesAppend(log, Finish(r.getIp, FailedGetReg));
      FinishesAppend(log, Finish(r.ip, InvalidIp));
      FinishesAppend(log, Finish(|stack1|, FailedIsManaged));
      FinishesAppend(log, ManagedTransition(r.ip, r.fp));
    }
  }

  lemma NativeFrameFinishes(w: World, lib: Libunwind, r: Regs, cap: nat, stack: seq<Word>, log: seq<TraceEvent>)
    requires r.getIp == 0 && r.ip >= MIN_NATIVE_IP && w.managed(r.ip) == Some(false)
    ensures var (turn, _, log1) := OneNative(w, lib, r, cap, stack, log);
            Finishes(log1) == Finishes(log) + if turn == Ended(false) then 1 else 0
  {
    var log1 := log + [NativeFrame(r.ip, r.fp, r.sp)];
    var log2 := log1 + [LibunwindStep(r.step)];
    FinishesAppend(log, NativeFrame(r.ip, r.fp, r.sp));
    if |stack| >= cap {
      FinishesAppend(log1, Finish(|stack|, BufferFull));
    } else {
      FinishesAppend(log1, LibunwindStep(r.step));
      FinishesAppend(log2, Finish(if r.step > 0 then -lib.fallback else r.step, FailedLibunwindStep));
    }
  }

  lemma {:induction false} NativeFinishes(w: World, lib: Libunwind, cursor: nat -> Regs, k: nat, cap: nat,
                                          stack: seq<Word>, log: seq<TraceEvent>)
    requires |stack| <= cap
    ensures var r := NativeWalk(w, lib, cursor, k, cap, stack, log);
            Finishes(r.log) == Finishes(log) + if r.reached then 0 else 1
    decreases cap - |stack|
  {
    OneNativeFinishes(w, lib, cursor(k), cap, stack, log);
    var (turn, stack1, log1) := OneNative(w, lib, cursor(k), cap, stack, log);
    if turn.Stepped? { NativeFinishes(w, lib, cursor, k + 1, cap, stack1, log1); }
  }

  // The call gets as far as the chain of frame records, and that holds one frame more than fits.
  predicate OverflowsInChain(w: World, lib: Libunwind, cursor: nat -> Regs, cap: nat, stack: seq<Word>)
    requires |stack| <= cap
  {
    var n := NativeWalk(w, lib, cursor, 0, cap, stack, []);
    n.reached && FollowsChain(w, cursor(n.at), cap, n.stack) && ChainOverflows(w, cursor(n.at), cap, n.stack)
  }

  lemma {:induction false} NativeIgnoresLog(w: World, lib: Libunwind, cursor: nat -> Regs, k: nat, cap: nat,
                                            stack: seq<Word>, log: seq<TraceEvent>, log': seq<TraceEvent>)
    requires |stack| <= cap
    ensures var r := NativeWalk(w, lib, cursor, k, cap, stack, log);
            var r' := NativeWalk(w, lib, cursor, k, cap, stack, log');
            r.reached == r'.reached && r.at == r'.at && r.stack == r'.stack
    decreases cap - |stack|
  {
    var (turn, stack1, log1) := OneNative(w, lib, cursor(k), cap, stack, log);
    var (_, _, log2) := OneNative(w, lib, cursor(k), cap, stack, log');
    if turn.Stepped? { NativeIgnoresLog(w, lib, cursor, k + 1, cap, stack1, log1, log2); }
  }

  lemma PhasesFinishes(w: World, lib: Libunwind, cursor: nat -> Regs, cap: nat, stack: seq<Word>, log: seq<TraceEvent>)
    requires |stack| <= cap
    ensures Finishes(Phases(w, lib, cursor, cap, stack, log).2) ==
            Finishes(log) + if OverflowsInChain(w, lib, cursor, cap, stack) then 2 else 1
  {
    NativeBounded(w, lib, cursor, 0, cap, stack, log);
    NativeFinishes(w, lib, cursor, 0, cap, stack, log);
    NativeIgnoresLog(w, lib, cursor, 0, cap, stack, log, []);
    var n := NativeWalk(w, lib, cursor, 0, cap, stack, log);
    ManagedFinishes(w, lib, cursor(n.at), cap, n.stack, n.log);
  }

  // The call gets past its checks to the two phases.
  predicate Begins(w: World, getContext: int, initLocal: int) {
    w.stackBase != 0 && w.stackEnd != 0 && getContext == 0 && initLocal == 0
  }

  /** A call leaves two finish events exactly when it fills the callstack on the chain of frame records, and
      exactly one on every other path; filling it in native code or at the first managed frame leaves one. */
  lemma UnwoundFinishes(w: World, lib: Libunwind, getContext: int, initLocal: int, cursor: nat -> Regs, cap: nat,
                        stack: seq<Word>)
    requires |stack| <= cap
    ensures Finishes(Unwound(w, lib, getContext, initLocal, cursor, cap, stack).2) ==
            if Begins(w, getContext, initLocal) && OverflowsInChain(w, lib, cursor, cap, stack) then 2 else 1
  {
    var start: seq<TraceEvent> := [Start];
    assert start == [] + [Start];
    FinishesAppend([], Start);
    FinishesAppend(start, InitCursor(initLocal));
    FinishesAppend(start, Finish(0, NoStackBounds));
    FinishesAppend(start, Finish(getContext, FailedGetContext));
    FinishesAppend(start + [InitCursor(initLocal)], Finish(initLocal, FailedInitLocal2));
    PhasesFinishes(w, lib, cursor, cap, stack, start + [InitCursor(initLocal)]);
  }

  const MANAGED_WORLD := World((a: Word) => 0x5000, (ip: Word) => Some(true), 8, 0x1000)

  function ManagedCursor(k: nat): Regs {
    Regs(0, 0x5000, 0, 16, 0, 1, false)
  }

  /** A callstack of one slot, in managed code called from managed code: two finish events. */
  lemma TwoFinishes(lib: Libunwind)
    ensures Finishes(Unwound(MANAGED_WORLD, lib, 0, 0, ManagedCursor, 1, []).2) == 2
  {
    var w, r := MANAGED_WORLD, ManagedCursor(0);
    assert Plus(16, 16) == 32;
    assert IsValidFp(16, 0, 8, 0x1000);
    var n := NativeWalk(w, lib, ManagedCursor, 0, 1, [], []);
    assert n.reached && n.at == 0 && n.stack == [];
    assert [] + [r.ip] == [0x5000];
    assert |Walk(w, 16, 2, 0, [0x5000], []).stack| == 2;
    UnwoundFinishes(w, lib, 0, 0, ManagedCursor, 1, []);
  }

  // --- How long a trace is ---

  // The frame records with a return address.
  function Returning(w: World, v: seq<Word>): nat {
    if v == [] then 0 else (if ReturnIp(w, v[0]) != 0 then 1 else 0) + Returning(w, v[1..])
  }

  /** The walk along the chain leaves one event for every frame record with a return address, and its
      finishes. */
  lemma {:induction false} WalkLength(w: World, fp: Word, cap: nat, native: nat, stack: seq<Word>, log: seq<TraceEvent>)
    requires fp != 0 && |stack| <= cap
    ensures var r := Walk(w, fp, cap, native, stack, log);
            |r.log| == |log| + Returning(w, r.visited) + Finishes(r.log) - Finishes(log)
    decreases WORD - fp
  {
    var t := OneFrame(w, fp, cap, native, stack, log);
    OneFrameFinishes(w, fp, cap, native, stack, log);
    OneFrameLength(w, fp, cap, native, stack, log);
    if t.Go? {
      WalkLength(w, t.next, cap, t.native, t.stack, t.log);
      ReturningCons(w, fp, Walk(w, t.next, cap, t.native, t.stack, t.log).visited);
    } else {
      ReturningCons(w, fp, []);
    }
  }

  lemma ReturningCons(w: World, fp: Word, rest: seq<Word>)
    ensures Returning(w, [fp] + rest) == (if ReturnIp(w, fp) != 0 then 1 else 0) + Returning(w, rest)
  {
    assert ([fp] + rest)[1..] == rest;
  }

  lemma OneFrameLength(w: World, fp: Word, cap: nat, native: nat, stack: seq<Word>, log: seq<TraceEvent>)
    requires |stack| <= cap
    ensures var t := OneFrame(w, fp, cap, native, stack, log);
            && (t.Go? ==> |t.log| == |log| + 1 && ReturnIp(w, fp) != 0 && |t.stack| <= cap)
            && (t.Over? ==> t.r.visited == [fp] + [] &&
                            |t.r.log| == |log| + (if ReturnIp(w, fp) != 0 then 1 else 0)
                                         + if OutOfRoom(w, fp, cap, stack) then 2 else 1)
            && (t.Over? && OutOfRoom(w, fp, cap, stack) ==> t.r.log[|t.r.log| - 2].Finish?)
  {
  }

  // What the last turn of the native loop leaves.
  function LastNative(w: World, r: Regs, room: bool): nat {
    if r.getIp == 0 && r.ip >= MIN_NATIVE_IP && w.managed(r.ip) == Some(false) then (if room then 3 else 2) else 1
  }

  /** The native walk leaves two events for every frame it steps over. */
  lemma {:induction false} NativeLength(w: World, lib: Libunwind, cursor: nat -> Regs, k: nat, cap: nat,
                                        stack: seq<Word>, log: seq<TraceEvent>)
    requires |stack| <= cap
    ensures var r := NativeWalk(w, lib, cursor, k, cap, stack, log);
            && k <= r.at <= k + cap - |stack|
            && |r.log| == |log| + 2 * (r.at - k) + LastNative(w, cursor(r.at), |stack| + r.at - k < cap)
    decreases cap - |stack|
  {
    var (turn, stack1, log1) := OneNative(w, lib, cursor(k), cap, stack, log);
    if turn.Stepped? { NativeLength(w, lib, cursor, k + 1, cap, stack1, log1); }
  }

  // What the managed phase leaves.
  function ManagedEvents(w: World, r: Regs, cap: nat, stack: seq<Word>): nat {
    if FollowsChain(w, r, cap, stack) then
      Returning(w, Walk(w, r.fp, cap, 0, stack + [r.ip], []).visited) +
      if ChainOverflows(w, r, cap, stack) then 2 else 1
    else 1
  }

  lemma {:induction false} VisitedIgnoresLog(w: World, fp: Word, cap: nat, native: nat, stack: seq<Word>,
                                             log: seq<TraceEvent>)
    requires fp != 0
    ensures Walk(w, fp, cap, native, stack, log).visited == Walk(w, fp, cap, native, stack, []).visited
    decreases WORD - fp
  {
    var t, t' := OneFrame(w, fp, cap, native, stack, log), OneFrame(w, fp, cap, native, stack, []);
    if t.Go? {
      VisitedIgnoresLog(w, t.next, cap, t.native, t.stack, t.log);
      VisitedIgnoresLog(w, t.next, cap, t.native, t.stack, t'.log);
    }
  }

  lemma ManagedLength(w: World, lib: Libunwind, r: Regs, cap: nat, stack: seq<Word>, log: seq<TraceEvent>)
    requires |stack| <= cap
    ensures |ManagedWalk(w, lib, r, cap, stack, log).log| == |log| + ManagedEvents(w, r, cap, stack)
  {
    if FollowsChain(w, r, cap, stack) {
      ChainFinishes(w, r.fp, cap, stack + [r.ip], log);
      WalkLength(w, r.fp, cap, 0, stack + [r.ip], log);
      VisitedIgnoresLog(w, r.fp, cap, 0, stack + [r.ip], log);
    }
  }

  // The number of events of a call that gets to the two phases.
  function TraceLength(w: World, lib: Libunwind, cursor: nat -> Regs, cap: nat, stack: seq<Word>): nat
    requires |stack| <= cap
  {
    var n := NativeWalk(w, lib, cursor, 0, cap, stack, []);
    2 + 2 * n.at + LastNative(w, cursor(n.at), |stack| + n.at < cap) +
    if n.reached then ManagedEvents(w, cursor(n.at), cap, n.stack) else 0
  }

  /** The length of the trace in terms of the frames walked. */
  lemma UnwoundLength(w: World, lib: Libunwind, getContext: int, initLocal: int, cursor: nat -> Regs, cap: nat,
                      stack: seq<Word>)
    requires |stack| <= cap
    ensures var log := Unwound(w, lib, getContext, initLocal, cursor, cap, stack).2;
            if Begins(w, getContext, initLocal) then |log| == TraceLength(w, lib, cursor, cap, stack) else |log| <= 3
  {
    var log1: seq<TraceEvent> := [Start] + [InitCursor(initLocal)];
    var n := NativeWalk(w, lib, cursor, 0, cap, stack, log1);
    NativeBounded(w, lib, cursor, 0, cap, stack, log1);
    NativeLength(w, lib, cursor, 0, cap, stack, log1);
    NativeIgnoresLog(w, lib, cursor, 0, cap, stack, log1, []);
    ManagedLength(w, lib, cursor(n.at), cap, n.stack, n.log);
  }

  // --- The events that are kept ---

  function Kept(log: seq<TraceEvent>): seq<TraceEvent> {
    if |log| <= RECORDER_CAPACITY then log else log[..RECORDER_CAPACITY]
  }

  /** What a recorder has stored. */
  lemma StoredIsKept(r: Recorder)
    requires r.Valid()
    ensures r.entries[..|Kept(r.log)|] == Kept(r.log)
  {
    forall k | 0 <= k < |Kept(r.log)| ensures r.entries[k] == Kept(r.log)[k] {}
  }

  lemma {:induction false} NoFinish(log: seq<TraceEvent>, k: nat)
    requires Finishes(log) == 0 && k < |log|
    ensures !log[k].Finish?
  {
    var last := |log| - 1;
    if k < last { NoFinish(log[..last], k); }
  }

  // Two finishes more than n, if there are, are at the end.
  predicate TwoAtEnd(log: seq<TraceEvent>, n: nat) {
    Finishes(log) == n + 2 ==> |log| >= 2 && log[|log| - 2].Finish?
  }

  lemma OneFrameLastTwo(w: World, fp: Word, cap: nat, native: nat, stack: seq<Word>, log: seq<TraceEvent>)
    requires |stack| <= cap
    ensures var t := OneFrame(w, fp, cap, native, stack, log);
            if t.Go? then Finishes(t.log) == Finishes(log) && |t.stack| <= cap else TwoAtEnd(t.r.log, Finishes(log))
  {
    OneFrameFinishes(w, fp, cap, native, stack, log);
    OneFrameLength(w, fp, cap, native, stack, log);
  }

  lemma {:induction false} WalkLastTwo(w: World, fp: Word, cap: nat, native: nat, stack: seq<Word>,
                                       log: seq<TraceEvent>)
    requires fp != 0 && |stack| <= cap
    ensures TwoAtEnd(Walk(w, fp, cap, native, stack, log).log, Finishes(log))
    decreases WORD - fp
  {
    var t := OneFrame(w, fp, cap, native, stack, log);
    OneFrameLastTwo(w, fp, cap, native, stack, log);
    if t.Go? { WalkLastTwo(w, t.next, cap, t.native, t.stack, t.log); }
  }

  // Where there are two finishes, they are the last two events.
  lemma UnwoundLastTwo(w: World, lib: Libunwind, getContext: int, initLocal: int, cursor: nat -> Regs, cap: nat,
                       stack: seq<Word>)
    requires |stack| <= cap
    ensures var log := Unwound(w, lib, getContext, initLocal, cursor, cap, stack).2;
            Finishes(log) == 2 ==> |log| >= 2 && log[|log| - 2].Finish?
  {
    UnwoundFinishes(w, lib, getContext, initLocal, cursor, cap, stack);
    if Begins(w, getContext, initLocal) && OverflowsInChain(w, lib, cursor, cap, stack) {
      PhasesLastTwo(w, lib, cursor, cap, stack, [Start] + [InitCursor(initLocal)]);
    }
  }

  lemma PhasesLastTwo(w: World, lib: Libunwind, cursor: nat -> Regs, cap: nat, stack: seq<Word>, log: seq<TraceEvent>)
    requires |stack| <= cap && OverflowsInChain(w, lib, cursor, cap, stack)
    ensures var u := Phases(w, lib, cursor, cap, stack, log).2; |u| >= 2 && u[|u| - 2].Finish?
  {
    NativeBounded(w, lib, cursor, 0, cap, stack, log);
    NativeIgnoresLog(w, lib, cursor, 0, cap, stack, log, []);
    var n := NativeWalk(w, lib, cursor, 0, cap, stack, log);
    ManagedLastTwo(w, lib, cursor(n.at), cap, n.stack, n.log);
  }

  lemma ManagedLastTwo(w: World, lib: Libunwind, r: Regs, cap: nat, stack: seq<Word>, log: seq<TraceEvent>)
    requires FollowsChain(w, r, cap, stack) && ChainOverflows(w, r, cap, stack)
    ensures var u := ManagedWalk(w, lib, r, cap, stack, log).log; |u| >= 2 && u[|u| - 2].Finish?
  {
    ChainFinishes(w, r.fp, cap, stack + [r.ip], log);
    WalkLastTwo(w, r.fp, cap, 0, stack + [r.ip], log);
  }

  // A trace whose finishes are its last events.
  lemma KeptEnd(log: seq<TraceEvent>)
    requires log != [] && log[|log| - 1].Finish? && 1 <= Finishes(log) <= 2
    requires Finishes(log) == 2 ==> |log| >= 2 && log[|log| - 2].Finish?
    ensures Kept(log)[|Kept(log)| - 1].Finish? <==>
            |log| <= RECORDER_CAPACITY || (|log| == RECORDER_CAPACITY + 1 && Finishes(log) == 2)
  {
    var init := log[..|log| - 1];
    if |log| > RECORDER_CAPACITY {
      if Finishes(log) == 1 {
        NoFinish(init, RECORDER_CAPACITY - 1);
      } else if |log| > RECORDER_CAPACITY + 1 {
        assert Finishes(init[..|init| - 1]) == 0;
        NoFinish(init[..|init| - 1], RECORDER_CAPACITY - 1);
      }
    }
  }

  // The events kept of a call end with a finish exactly when there are no more than 256 events, or 257 of
  // which the last two are finishes.
  lemma KeptEndsByLength(w: World, lib: Libunwind, getContext: int, initLocal: int, cursor: nat -> Regs, cap: nat,
                         stack: seq<Word>)
    requires |stack| <= cap
    ensures var log := Unwound(w, lib, getContext, initLocal, cursor, cap, stack).2;
            log != [] && (Kept(log)[|Kept(log)| - 1].Finish? <==>
                          |log| <= RECORDER_CAPACITY || (|log| == RECORDER_CAPACITY + 1 && Finishes(log) == 2))
  {
    UnwindEndsWithFinish(w, lib, getContext, initLocal, cursor, cap, stack);
    UnwoundFinishes(w, lib, getContext, initLocal, cursor, cap, stack);
    UnwoundLastTwo(w, lib, getContext, initLocal, cursor, cap, stack);
    KeptEnd(Unwound(w, lib, getContext, initLocal, cursor, cap, stack).2);
  }

  /** In terms of the call: the events kept end with a finish exactly when the call does not get to the two phases,
      the frames walked leave at most 256 events, or they leave 257 and the callstack fills on the chain. */
  lemma KeptEndsWithFinish(w: World, lib: Libunwind, getContext: int, initLocal: int, cursor: nat -> Regs, cap: nat,
                           stack: seq<Word>)
    requires |stack| <= cap
    ensures var log := Unwound(w, lib, getContext, initLocal, cursor, cap, stack).2;
            var length := TraceLength(w, lib, cursor, cap, stack);
            log != [] &&
            (Kept(log)[|Kept(log)| - 1].Finish? <==>
               || !Begins(w, getContext, initLocal) || length <= RECORDER_CAPACITY
               || (length == RECORDER_CAPACITY + 1 && OverflowsInChain(w, lib, cursor, cap, stack)))
  {
    KeptEndsByLength(w, lib, getContext, initLocal, cursor, cap, stack);
    UnwoundLength(w, lib, getContext, initLocal, cursor, cap, stack);
    UnwoundFinishes(w, lib, getContext, initLocal, cursor, cap, stack);
  }

  // --- A deep native stack ---

  const NATIVE_WORLD := World((a: Word) => 0, (ip: Word) => Some(false), 8, 0x1000)

  function NativeCursor(k: nat): Regs {
    Regs(0, 0x5000, 0, 16, 0, 1, false)
  }

  lemma {:induction false} NativeFills(lib: Libunwind, k: nat, cap: nat, stack: seq<Word>, log: seq<TraceEvent>)
    requires |stack| <= cap
    ensures var r := NativeWalk(NATIVE_WORLD, lib, NativeCursor, k, cap, stack, log);
            !r.reached && |r.log| == |log| + 2 * (cap - |stack|) + 2
    decreases cap - |stack|
  {
    var (turn, stack1, log1) := OneNative(NATIVE_WORLD, lib, NativeCursor(k), cap, stack, log);
    if turn.Stepped? { NativeFills(lib, k + 1, cap, stack1, log1); }
  }

  /** With 127 native frames or more, as a callstack of 1024 has room for, the finish is not kept; with fewer
      it is. */
  lemma DeepStackLosesFinish(lib: Libunwind, cap: nat)
    ensures var log := Unwound(NATIVE_WORLD, lib, 0, 0, NativeCursor, cap, []).2;
            log != [] && (Kept(log)[|Kept(log)| - 1].Finish? <==> cap < 127)
  {
    NativeFills(lib, 0, cap, [], [Start] + [InitCursor(0)]);
    NativeFills(lib, 0, cap, [], []);
    UnwoundFinishes(NATIVE_WORLD, lib, 0, 0, NativeCursor, cap, []);
    KeptEndsByLength(NATIVE_WORLD, lib, 0, 0, NativeCursor, cap, []);
  }
}
