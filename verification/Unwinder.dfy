/** Unwinding a mixed stack: native frames through a libunwind cursor, then managed frames along the chain
    of frame records, whatever the stack memory holds. */
module Unwinder {
  import opened Collections
  import opened Words

  type Word = x: int | 0 <= x < WORD witness 0

  datatype Reason = Success | BufferFull | FailedGetContext | FailedInitLocal2 | FailedGetReg | FailedLibunwindStep |
                    NoStackBounds | InvalidFp | TooManyNativeFrames | InvalidIp | FailedIsManaged

  datatype TraceEvent =
    | Start
    | InitCursor(result: int)
    | NativeFrame(ip: Word, fp: Word, sp: Word)
    | ManagedTransition(ip: Word, fp: Word)
    | LibunwindStep(result: int)
    | FrameChainStep(ip: Word, fp: Word)
    | Finish(result: int, reason: Reason)

  const FAKE_UNKNOWN_IP: Word := 0
  const UNKNOWN_FRAME_TYPE_IP: Word := 3
  const MIN_NATIVE_IP := 0x4000
  const MAX_CONSECUTIVE_NATIVE := 8
  const RECORDER_CAPACITY := 256

  /** The memory, what the code cache knows of an address, and the stack bounds. */
  datatype World = World(mem: Word -> Word, managed: Word -> Option<bool>, stackBase: Word, stackEnd: Word)

  // --- Frame pointers ---

  function Plus(a: Word, n: nat): Word {
    (a + n) % WORD
  }

  predicate IsValidFp(fp: Word, prevFp: Word, stackBase: Word, stackEnd: Word) {
    && fp != 0 && fp % 8 == 0
    && !(fp < stackBase || Plus(fp, 16) > stackEnd)
    && !(prevFp != 0 && fp <= prevFp)
  }

  // The 16-byte frame record lies within the stack.
  predicate WithinStack(fp: Word, stackBase: Word, stackEnd: Word) {
    stackBase <= fp && fp + 16 <= stackEnd
  }

  /** An accepted frame pointer is aligned and above the base, and its record lies within the stack exactly
      when it is not among the last 16 addresses, where the bound check wraps. */
  lemma ValidFpWithin(fp: Word, prevFp: Word, stackBase: Word, stackEnd: Word)
    requires IsValidFp(fp, prevFp, stackBase, stackEnd)
    ensures fp % 8 == 0 && stackBase <= fp && (prevFp != 0 ==> prevFp < fp)
    ensures WithinStack(fp, stackBase, stackEnd) <==> fp < WORD - 16
  {
    if fp < WORD - 16 { assert Plus(fp, 16) == fp + 16; }
  }

  /** One that is there is accepted, whatever the bounds say of the end. */
  lemma WrappedFpAccepted(stackBase: Word, stackEnd: Word)
    requires stackBase <= WORD - 16
    ensures IsValidFp(WORD - 16, 0, stackBase, stackEnd) && !WithinStack(WORD - 16, stackBase, stackEnd)
  {
    assert Plus(WORD - 16, 16) == 0;
  }

  // --- The managed walk ---

  /** What a walk leaves: the callstack, the trace, and the frame pointers whose records were read. */
  datatype Result = Result(stack: seq<Word>, log: seq<TraceEvent>, visited: seq<Word>)

  function ReturnIp(w: World, fp: Word): Word {
    w.mem(Plus(fp, 8))
  }

  function Finished(stack: seq<Word>, log: seq<TraceEvent>, fp: Word, reason: Reason): Result {
    Result(stack, log + [Finish(|stack|, reason)], [fp])
  }

  // One turn of the walk: it is over, or it goes on at the next frame pointer.
  datatype Turn = Over(r: Result) | Go(next: Word, native: nat, stack: seq<Word>, log: seq<TraceEvent>)

  function OneFrame(w: World, fp: Word, cap: nat, native: nat, stack: seq<Word>, log: seq<TraceEvent>): (t: Turn)
    ensures t.Go? ==> IsValidFp(t.next, fp, w.stackBase, w.stackEnd)
  {
    var ip := ReturnIp(w, fp);
    if ip == 0 then Over(Finished(stack, log, fp, Success))
    else
      var log1 := log + [FrameChainStep(ip, fp)];
      if w.managed(ip) != Some(false) && |stack| >= cap then
        Over(Finished(stack, log1 + [Finish(|stack|, BufferFull)], fp, Success))
      else
        var stack1 := match w.managed(ip)
          case None => stack + [FAKE_UNKNOWN_IP]
          case Some(managed) => if managed then stack + [ip] else stack;
        var native1 := if w.managed(ip) == Some(true) then 0 else native + 1;
        if native1 > MAX_CONSECUTIVE_NATIVE then Over(Finished(stack1, log1, fp, TooManyNativeFrames))
        else if !IsValidFp(w.mem(fp), fp, w.stackBase, w.stackEnd) then Over(Finished(stack1, log1, fp, InvalidFp))
        else Go(w.mem(fp), native1, stack1, log1)
  }

  /** The walk ends on every memory: the frame pointer only grows. */
  function Walk(w: World, fp: Word, cap: nat, native: nat, stack: seq<Word>, log: seq<TraceEvent>): Result
    requires fp != 0
    decreases WORD - fp
  {
    match OneFrame(w, fp, cap, native, stack, log)
    case Over(r) => r
    case Go(next, native1, stack1, log1) =>
      var r := Walk(w, next, cap, native1, stack1, log1);
      r.(visited := [fp] + r.visited)
  }

  // --- What holds of every walk ---

  /** The callstack only grows and never exceeds its capacity, and the last event is a finish. */
  lemma {:induction false} WalkBounded(w: World, fp: Word, cap: nat, native: nat, stack: seq<Word>,
                                       log: seq<TraceEvent>)
    requires fp != 0 && |stack| <= cap
    ensures var r := Walk(w, fp, cap, native, stack, log);
            stack <= r.stack && |r.stack| <= cap && r.log != [] && r.log[|r.log| - 1].Finish?
    decreases WORD - fp
  {
    var t := OneFrame(w, fp, cap, native, stack, log);
    if t.Go? { WalkBounded(w, t.next, cap, t.native, t.stack, t.log); }
  }

  predicate AlignedAbove(w: World, fp: Word) {
    fp % 8 == 0 && w.stackBase <= fp
  }

  /** Every frame record read is aligned and above the base, each above the one before it, and lies within
      the stack exactly when it is not among the last 16 addresses. */
  lemma {:induction false} WalkReads(w: World, fp: Word, cap: nat, native: nat, stack: seq<Word>, log: seq<TraceEvent>)
    requires IsValidFp(fp, 0, w.stackBase, w.stackEnd)
    ensures var v := Walk(w, fp, cap, native, stack, log).visited;
            && v != [] && v[0] == fp
            && (forall k :: 0 <= k < |v| ==> AlignedAbove(w, v[k]))
            && (forall k :: 0 <= k < |v| ==> (WithinStack(v[k], w.stackBase, w.stackEnd) <==> v[k] < WORD - 16))
            && (forall i, k :: 0 <= i < k < |v| ==> v[i] < v[k])
    decreases WORD - fp
  {
    ValidFpWithin(fp, 0, w.stackBase, w.stackEnd);
    var t := OneFrame(w, fp, cap, native, stack, log);
    if t.Go? {
      WalkReads(w, t.next, cap, t.native, t.stack, t.log);
      var v := Walk(w, t.next, cap, t.native, t.stack, t.log).visited;
      assert forall k :: 0 <= k < |v| ==> t.next <= v[k];
    }
  }

  // No link within the stack leads to the last 16 addresses.
  ghost predicate NoWrappingLink(w: World) {
    forall a: Word :: WithinStack(a, w.stackBase, w.stackEnd) ==> w.mem(a) < WORD - 16
  }

  ghost predicate AllWithin(w: World, v: seq<Word>) {
    forall k :: 0 <= k < |v| ==> WithinStack(v[k], w.stackBase, w.stackEnd)
  }

  lemma AllWithinCons(w: World, fp: Word, v: seq<Word>)
    requires WithinStack(fp, w.stackBase, w.stackEnd) && AllWithin(w, v)
    ensures AllWithin(w, [fp] + v)
  {
  }

  /** When neither the first frame pointer nor any link within the stack is there, every record read lies
      within the stack. */
  lemma {:induction false} WalkWithin(w: World, fp: Word, cap: nat, native: nat, stack: seq<Word>, log: seq<TraceEvent>)
    requires IsValidFp(fp, 0, w.stackBase, w.stackEnd) && fp < WORD - 16 && NoWrappingLink(w)
    ensures AllWithin(w, Walk(w, fp, cap, native, stack, log).visited)
    decreases WORD - fp
  {
    ValidFpWithin(fp, 0, w.stackBase, w.stackEnd);
    assert w.mem(fp) < WORD - 16;
    var t := OneFrame(w, fp, cap, native, stack, log);
    if t.Go? {
      WalkWithin(w, t.next, cap, t.native, t.stack, t.log);
      AllWithinCons(w, fp, Walk(w, t.next, cap, t.native, t.stack, t.log).visited);
    } else {
      assert t.r.visited == [fp];
    }
  }

  // A frame whose return address is not known to be managed.
  predicate IsNonManaged(w: World, fp: Word) {
    ReturnIp(w, fp) != 0 && w.managed(ReturnIp(w, fp)) != Some(true)
  }

  // How many non-managed frames come first.
  function Leading(w: World, v: seq<Word>): nat {
    if v == [] || !IsNonManaged(w, v[0]) then 0 else 1 + Leading(w, v[1..])
  }

  /** There are never more than 9 non-managed frames in a row. */
  lemma {:induction false} WalkRuns(w: World, fp: Word, cap: nat, native: nat, stack: seq<Word>, log: seq<TraceEvent>,
                                    k: nat)
    requires fp != 0 && native <= MAX_CONSECUTIVE_NATIVE && k <= |Walk(w, fp, cap, native, stack, log).visited|
    ensures var v := Walk(w, fp, cap, native, stack, log).visited;
            Leading(w, v[k..]) <= MAX_CONSECUTIVE_NATIVE + 1 - (if k == 0 then native else 0)
    decreases WORD - fp
  {
    var t := OneFrame(w, fp, cap, native, stack, log);
    var v := Walk(w, fp, cap, native, stack, log).visited;
    assert v[0..] == v;
    if t.Over? {
      assert v == [fp] && v[1..] == [];
    } else {
      var rest := Walk(w, t.next, cap, t.native, t.stack, t.log).visited;
      assert v[1..] == rest;
      WalkRuns(w, t.next, cap, t.native, t.stack, t.log, if k == 0 then 0 else k - 1);
      assert rest[0..] == rest;
      if k > 0 { assert v[k..] == rest[k - 1..]; }
    }
  }

  /** The frame pointers visited are the chain of links from the first one. */
  lemma {:induction false} WalkChain(w: World, fp: Word, cap: nat, native: nat, stack: seq<Word>, log: seq<TraceEvent>)
    requires fp != 0
    ensures var v := Walk(w, fp, cap, native, stack, log).visited;
            v != [] && v[0] == fp && forall i, k :: 0 <= i && k == i + 1 < |v| ==> v[k] == w.mem(v[i])
    decreases WORD - fp
  {
    var t := OneFrame(w, fp, cap, native, stack, log);
    if t.Go? { WalkChain(w, t.next, cap, t.native, t.stack, t.log); }
  }

  // What a frame contributes: its return address if managed, the fake address if that is not known.
  function FrameOf(w: World, fp: Word): seq<Word> {
    var ip := ReturnIp(w, fp);
    if ip == 0 then []
    else match w.managed(ip)
      case None => [FAKE_UNKNOWN_IP]
      case Some(managed) => if managed then [ip] else []
  }

  function FramesOf(w: World, v: seq<Word>): seq<Word> {
    if v == [] then [] else FrameOf(w, v[0]) + FramesOf(w, v[1..])
  }

  function Capped(s: seq<Word>, cap: nat): seq<Word> {
    if |s| <= cap then s else s[..cap]
  }

  /** The callstack gets the managed return addresses of the frames visited, in order, as far as it has room. */
  lemma {:induction false} WalkFrames(w: World, fp: Word, cap: nat, native: nat, stack: seq<Word>, log: seq<TraceEvent>)
    requires fp != 0 && |stack| <= cap
    ensures var r := Walk(w, fp, cap, native, stack, log); r.stack == Capped(stack + FramesOf(w, r.visited), cap)
    decreases WORD - fp
  {
    var t := OneFrame(w, fp, cap, native, stack, log);
    if t.Go? {
      WalkFrames(w, t.next, cap, t.native, t.stack, t.log);
      FramesCons(w, fp, Walk(w, t.next, cap, t.native, t.stack, t.log).visited, stack);
      assert t.stack == stack + FrameOf(w, fp);
    } else {
      FramesCons(w, fp, [], stack);
      assert t.r.visited == [fp] + [];
    }
  }

  lemma FramesCons(w: World, fp: Word, rest: seq<Word>, stack: seq<Word>)
    ensures stack + FramesOf(w, [fp] + rest) == stack + FrameOf(w, fp) + FramesOf(w, rest)
  {
    assert ([fp] + rest)[1..] == rest;
  }

  /** A smaller buffer holds just the beginning of what a larger one would hold. */
  lemma {:induction false} WalkCapped(w: World, fp: Word, cap: nat, more: nat, native: nat, stack: seq<Word>,
                                      log: seq<TraceEvent>)
    requires fp != 0 && |stack| <= cap <= more
    ensures Walk(w, fp, cap, native, stack, log).stack == Capped(Walk(w, fp, more, native, stack, log).stack, cap)
    decreases WORD - fp
  {
    var t, m := OneFrame(w, fp, cap, native, stack, log), OneFrame(w, fp, more, native, stack, log);
    if m.Go? { WalkBounded(w, m.next, more, m.native, m.stack, m.log); }
    if t.Go? {
      WalkCapped(w, t.next, cap, more, t.native, t.stack, t.log);
    } else if m.Go? {
      assert |stack| == cap && stack <= Walk(w, fp, more, native, stack, log).stack;
    }
  }

  // --- The callstack and the recorder ---

  class Callstack {
    const buffer: array<Word>
    var count: nat

    ghost predicate Valid()
      reads this
    {
      count <= buffer.Length
    }

    ghost function Contents(): seq<Word>
      requires Valid()
      reads this, buffer
    {
      buffer[..count]
    }

    constructor (capacity: nat)
      ensures Valid() && fresh(buffer) && buffer.Length == capacity && Contents() == []
    {
      buffer := new Word[capacity](_ => 0);
      count := 0;
    }

    method Add(ip: Word) returns (ok: bool)
      requires Valid()
      modifies this, buffer
      ensures Valid() && ok == (old(count) < buffer.Length)
      ensures Contents() == if ok then old(Contents()) + [ip] else old(Contents())
    {
      if count >= buffer.Length {
        return false;
      }
      buffer[count] := ip;
      count := count + 1;
      return true;
    }
  }

  /** Keeps the first 256 events and counts them all; log is every event it was given. */
  class Recorder {
    const entries: array<TraceEvent>
    var total: nat
    ghost var log: seq<TraceEvent>

    ghost predicate Valid()
      reads this, entries
    {
      && entries.Length == RECORDER_CAPACITY && total == |log|
      && forall k :: 0 <= k < total && k < RECORDER_CAPACITY ==> entries[k] == log[k]
    }

    constructor ()
      ensures Valid() && fresh(entries) && log == []
    {
      entries := new TraceEvent[RECORDER_CAPACITY](_ => Start);
      total, log := 0, [];
    }

    method Record(e: TraceEvent)
      requires Valid()
      modifies this, entries
      ensures Valid() && log == old(log) + [e]
    {
      if total < RECORDER_CAPACITY {
        entries[total] := e;
      }
      total := total + 1;
      log := log + [e];
    }
  }

  ghost predicate Keeps(r: Recorder?, log: seq<TraceEvent>)
    reads r, if r == null then {} else {r.entries}
  {
    r != null ==> r.Valid() && r.log == log
  }

  method Note(r: Recorder?, e: TraceEvent, ghost log: seq<TraceEvent>)
    requires Keeps(r, log)
    modifies r, if r == null then {} else {r.entries}
    ensures Keeps(r, log + [e])
  {
    if r != null {
      r.Record(e);
    }
  }

  // --- The two phases ---

  /** Constants of libunwind. */
  datatype Libunwind = Libunwind(ipRegister: int, fallback: int)

  /** What the cursor gives at one frame, and the outcome of stepping from it. */
  datatype Regs = Regs(getIp: int, ip: Word, getFp: int, fp: Word, sp: Word, step: int, isFallback: bool)

  datatype NativeResult = NativeResult(reached: bool, at: nat, stack: seq<Word>, log: seq<TraceEvent>)

  datatype NativeTurn = Ended(reached: bool) | Stepped

  // What one turn of the native loop leaves.
  function OneNative(w: World, lib: Libunwind, r: Regs, cap: nat, stack: seq<Word>, log: seq<TraceEvent>)
    : (NativeTurn, seq<Word>, seq<TraceEvent>)
  {
    if r.getIp != 0 || r.ip == 0 then (Ended(false), stack, log + [Finish(r.getIp, FailedGetReg)])
    else if r.ip < MIN_NATIVE_IP then (Ended(false), stack, log + [Finish(r.ip, InvalidIp)])
    else
      match w.managed(r.ip)
      case None =>
        var stack1 := if |stack| < cap then stack + [UNKNOWN_FRAME_TYPE_IP] else stack;
        (Ended(false), stack1, log + [Finish(|stack1|, FailedIsManaged)])
      case Some(managed) =>
        if managed then (Ended(true), stack, log + [ManagedTransition(r.ip, r.fp)])
        else
          var log1 := log + [NativeFrame(r.ip, r.fp, r.sp)];
          if |stack| >= cap then (Ended(false), stack, log1 + [Finish(|stack|, BufferFull)])
          else
            var log2 := log1 + [LibunwindStep(r.step)];
            if r.step <= 0 || r.isFallback then
              (Ended(false), stack + [r.ip],
               log2 + [Finish(if r.step > 0 then -lib.fallback else r.step, FailedLibunwindStep)])
            else (Stepped, stack + [r.ip], log2)
  }

  function NativeWalk(w: World, lib: Libunwind, cursor: nat -> Regs, k: nat, cap: nat,
                      stack: seq<Word>, log: seq<TraceEvent>): NativeResult
    requires |stack| <= cap
    decreases cap - |stack|
  {
    var (turn, stack1, log1) := OneNative(w, lib, cursor(k), cap, stack, log);
    match turn
    case Ended(reached) => NativeResult(reached, k, stack1, log1)
    case Stepped => NativeWalk(w, lib, cursor, k + 1, cap, stack1, log1)
  }

  function ManagedWalk(w: World, lib: Libunwind, r: Regs, cap: nat, stack: seq<Word>, log: seq<TraceEvent>): Result {
    if r.getIp != 0 || r.ip == 0 then Result(stack, log + [Finish(lib.ipRegister, FailedGetReg)], [])
    else if |stack| >= cap then Result(stack, log + [Finish(|stack|, BufferFull)], [])
    else
      var stack1 := stack + [r.ip];
      if r.getFp != 0 || !IsValidFp(r.fp, 0, w.stackBase, w.stackEnd) then
        Result(stack1, log + [Finish(r.getFp, InvalidFp)], [])
      else Walk(w, r.fp, cap, 0, stack1, log)
  }

  /** The native walk, on whatever cursor, keeps within the capacity; when it stops short of managed code
      its last event is a finish. */
  lemma {:induction false} NativeBounded(w: World, lib: Libunwind, cursor: nat -> Regs, k: nat, cap: nat,
                                         stack: seq<Word>, log: seq<TraceEvent>)
    requires |stack| <= cap
    ensures var r := NativeWalk(w, lib, cursor, k, cap, stack, log);
            && stack <= r.stack && |r.stack| <= cap && k <= r.at <= k + cap - |stack|
            && (r.reached ==> w.managed(cursor(r.at).ip) == Some(true))
            && (!r.reached ==> r.log != [] && r.log[|r.log| - 1].Finish?)
    decreases cap - |stack|
  {
    var (turn, stack1, log1) := OneNative(w, lib, cursor(k), cap, stack, log);
    if turn.Stepped? { NativeBounded(w, lib, cursor, k + 1, cap, stack1, log1); }
  }

  method UnwindNativeFrames(w: World, lib: Libunwind, cursor: nat -> Regs, callstack: Callstack, recorder: Recorder?,
                            ghost log: seq<TraceEvent>)
    returns (reached: bool, at: nat, ghost log': seq<TraceEvent>)
    requires callstack.Valid() && Keeps(recorder, log)
    modifies callstack, callstack.buffer, recorder, if recorder == null then {} else {recorder.entries}
    ensures callstack.Valid() && Keeps(recorder, log')
    ensures NativeResult(reached, at, callstack.Contents(), log') ==
            NativeWalk(w, lib, cursor, 0, callstack.buffer.Length, old(callstack.Contents()), log)
  {
    at, log' := 0, log;
    while true
      invariant callstack.Valid() && Keeps(recorder, log')
      invariant NativeWalk(w, lib, cursor, 0, callstack.buffer.Length, old(callstack.Contents()), log) ==
                NativeWalk(w, lib, cursor, at, callstack.buffer.Length, callstack.Contents(), log')
      decreases callstack.buffer.Length - callstack.count
    {
      var turn;
      ghost var log1;
      turn, log1 := VisitNative(w, lib, cursor(at), callstack, recorder, log');
      log' := log1;
      if turn.Ended? {
        return turn.reached, at, log';
      }
      at := at + 1;
    }
  }

  method VisitNative(w: World, lib: Libunwind, r: Regs, callstack: Callstack, recorder: Recorder?,
                     ghost log: seq<TraceEvent>)
    returns (turn: NativeTurn, ghost log': seq<TraceEvent>)
    requires callstack.Valid() && Keeps(recorder, log)
    modifies callstack, callstack.buffer, recorder, if recorder == null then {} else {recorder.entries}
    ensures callstack.Valid() && Keeps(recorder, log')
    ensures (turn, callstack.Contents(), log') ==
            OneNative(w, lib, r, callstack.buffer.Length, old(callstack.Contents()), log)
  {
    log' := log;
    if r.getIp != 0 || r.ip == 0 {
      Note(recorder, Finish(r.getIp, FailedGetReg), log');
      return Ended(false), log' + [Finish(r.getIp, FailedGetReg)];
    }
    if r.ip < MIN_NATIVE_IP {
      Note(recorder, Finish(r.ip, InvalidIp), log');
      return Ended(false), log' + [Finish(r.ip, InvalidIp)];
    }
    var managed := w.managed(r.ip);
    if managed.None? {
      var _ := callstack.Add(UNKNOWN_FRAME_TYPE_IP);
      Note(recorder, Finish(callstack.count, FailedIsManaged), log');
      return Ended(false), log' + [Finish(callstack.count, FailedIsManaged)];
    }
    if managed.value {
      Note(recorder, ManagedTransition(r.ip, r.fp), log');
      return Ended(true), log' + [ManagedTransition(r.ip, r.fp)];
    }
    Note(recorder, NativeFrame(r.ip, r.fp, r.sp), log');
    log' := log' + [NativeFrame(r.ip, r.fp, r.sp)];
    var ok := callstack.Add(r.ip);
    if !ok {
      Note(recorder, Finish(callstack.count, BufferFull), log');
      return Ended(false), log' + [Finish(callstack.count, BufferFull)];
    }
    Note(recorder, LibunwindStep(r.step), log');
    log' := log' + [LibunwindStep(r.step)];
    if r.step <= 0 || r.isFallback {
      var result := if r.step > 0 then -lib.fallback else r.step;
      Note(recorder, Finish(result, FailedLibunwindStep), log');
      return Ended(false), log' + [Finish(result, FailedLibunwindStep)];
    }
    return Stepped, log';
  }

  // One turn of the loop over frame records.
  method VisitFrame(w: World, fp: Word, native: nat, callstack: Callstack, recorder: Recorder?,
                    ghost log: seq<TraceEvent>)
    returns (go: bool, next: Word, native': nat, reason: Reason, ghost log': seq<TraceEvent>)
    requires callstack.Valid() && Keeps(recorder, log)
    modifies callstack, callstack.buffer, recorder, if recorder == null then {} else {recorder.entries}
    ensures callstack.Valid() && Keeps(recorder, log')
    ensures var t := OneFrame(w, fp, callstack.buffer.Length, native, old(callstack.Contents()), log);
            if go then t == Go(next, native', callstack.Contents(), log')
            else t == Over(Finished(callstack.Contents(), log', fp, reason))
  {
    next, native', log', reason := 0, native, log, Success;
    var ip := ReturnIp(w, fp);
    if ip == 0 {
      return false, next, native', reason, log';
    }
    Note(recorder, FrameChainStep(ip, fp), log');
    log' := log' + [FrameChainStep(ip, fp)];
    var managed := w.managed(ip);
    if managed != Some(false) {
      var ok := callstack.Add(if managed == Some(true) then ip else FAKE_UNKNOWN_IP);
      if !ok {
        Note(recorder, Finish(callstack.count, BufferFull), log');
        log' := log' + [Finish(callstack.count, BufferFull)];
        return false, next, native', reason, log';
      }
    }
    native' := if managed == Some(true) then 0 else native + 1;
    if native' > MAX_CONSECUTIVE_NATIVE {
      return false, next, native', TooManyNativeFrames, log';
    }
    next := w.mem(fp);
    if !IsValidFp(next, fp, w.stackBase, w.stackEnd) {
      return false, next, native', InvalidFp, log';
    }
    return true, next, native', reason, log';
  }

  method UnwindManagedFrames(w: World, lib: Libunwind, r: Regs, callstack: Callstack, recorder: Recorder?,
                             ghost log: seq<TraceEvent>)
    returns (ghost log': seq<TraceEvent>)
    requires callstack.Valid() && Keeps(recorder, log)
    modifies callstack, callstack.buffer, recorder, if recorder == null then {} else {recorder.entries}
    ensures callstack.Valid() && Keeps(recorder, log')
    ensures var m := ManagedWalk(w, lib, r, callstack.buffer.Length, old(callstack.Contents()), log);
            callstack.Contents() == m.stack && log' == m.log
  {
    log' := log;
    if r.getIp != 0 || r.ip == 0 {
      Note(recorder, Finish(lib.ipRegister, FailedGetReg), log');
      return log' + [Finish(lib.ipRegister, FailedGetReg)];
    }
    var ok := callstack.Add(r.ip);
    if !ok {
      Note(recorder, Finish(callstack.count, BufferFull), log');
      return log' + [Finish(callstack.count, BufferFull)];
    }
    if r.getFp != 0 || !IsValidFp(r.fp, 0, w.stackBase, w.stackEnd) {
      Note(recorder, Finish(r.getFp, InvalidFp), log');
      return log' + [Finish(r.getFp, InvalidFp)];
    }
    log' := FollowChain(w, r.fp, callstack, recorder, log');
  }

  method FollowChain(w: World, first: Word, callstack: Callstack, recorder: Recorder?, ghost log: seq<TraceEvent>)
    returns (ghost log': seq<TraceEvent>)
    requires first != 0 && callstack.Valid() && Keeps(recorder, log)
    modifies callstack, callstack.buffer, recorder, if recorder == null then {} else {recorder.entries}
    ensures callstack.Valid() && Keeps(recorder, log')
    ensures var m := Walk(w, first, callstack.buffer.Length, 0, old(callstack.Contents()), log);
            callstack.Contents() == m.stack && log' == m.log
  {
    log' := log;
    ghost var m := Walk(w, first, callstack.buffer.Length, 0, callstack.Contents(), log);
    var fp, native: nat := first, 0;
    while true
      invariant fp != 0 && callstack.Valid() && Keeps(recorder, log')
      invariant Walk(w, fp, callstack.buffer.Length, native, callstack.Contents(), log').(visited := []) ==
                m.(visited := [])
      decreases WORD - fp
    {
      var go, next, native', reason;
      ghost var log1;
      go, next, native', reason, log1 := VisitFrame(w, fp, native, callstack, recorder, log');
      log' := log1;
      if !go {
        Note(recorder, Finish(callstack.count, reason), log');
        log' := log' + [Finish(callstack.count, reason)];
        return;
      }
      fp, native := next, native';
    }
  }

  /** One call: what the context and the cursor initialization returned, then the two phases. */
  function Unwound(w: World, lib: Libunwind, getContext: int, initLocal: int, cursor: nat -> Regs, cap: nat,
                   stack: seq<Word>)
    : (int, seq<Word>, seq<TraceEvent>)
    requires |stack| <= cap
  {
    var log := [Start];
    if w.stackBase == 0 || w.stackEnd == 0 then (0, stack, log + [Finish(0, NoStackBounds)])
    else if getContext != 0 then (-1, stack, log + [Finish(getContext, FailedGetContext)])
    else
      var log1 := log + [InitCursor(initLocal)];
      if initLocal != 0 then (-1, stack, log1 + [Finish(initLocal, FailedInitLocal2)])
      else Phases(w, lib, cursor, cap, stack, log1)
  }

  function Phases(w: World, lib: Libunwind, cursor: nat -> Regs, cap: nat, stack: seq<Word>, log: seq<TraceEvent>)
    : (int, seq<Word>, seq<TraceEvent>)
    requires |stack| <= cap
  {
    var n := NativeWalk(w, lib, cursor, 0, cap, stack, log);
    if !n.reached then (|n.stack|, n.stack, n.log)
    else var m := ManagedWalk(w, lib, cursor(n.at), cap, n.stack, n.log); (|m.stack|, m.stack, m.log)
  }

  method UnwindPhases(w: World, lib: Libunwind, cursor: nat -> Regs, callstack: Callstack, recorder: Recorder?,
                      ghost log: seq<TraceEvent>)
    returns (size: int)
    requires callstack.Valid() && Keeps(recorder, log)
    modifies callstack, callstack.buffer, recorder, if recorder == null then {} else {recorder.entries}
    ensures callstack.Valid()
    ensures var u := Phases(w, lib, cursor, callstack.buffer.Length, old(callstack.Contents()), log);
            size == u.0 && callstack.Contents() == u.1 && Keeps(recorder, u.2)
  {
    var reached, at;
    ghost var log1;
    reached, at, log1 := UnwindNativeFrames(w, lib, cursor, callstack, recorder, log);
    if reached {
      ghost var log2 := UnwindManagedFrames(w, lib, cursor(at), callstack, recorder, log1);
    }
    return callstack.count;
  }

  // A context given by the caller counts as read without error.
  method Unwind(w: World, lib: Libunwind, getContext: int, initLocal: int, cursor: nat -> Regs, callstack: Callstack,
                recorder: Recorder?)
    returns (size: int)
    requires callstack.Valid() && Keeps(recorder, [])
    modifies callstack, callstack.buffer, recorder, if recorder == null then {} else {recorder.entries}
    ensures callstack.Valid()
    ensures var u := Unwound(w, lib, getContext, initLocal, cursor, callstack.buffer.Length, old(callstack.Contents()));
            size == u.0 && callstack.Contents() == u.1 && Keeps(recorder, u.2)
  {
    Note(recorder, Start, []);
    ghost var log := [Start];
    assert [] + [Start] == log;
    if w.stackBase == 0 || w.stackEnd == 0 {
      Note(recorder, Finish(0, NoStackBounds), log);
      return 0;
    }
    if getContext != 0 {
      Note(recorder, Finish(getContext, FailedGetContext), log);
      return -1;
    }
    Note(recorder, InitCursor(initLocal), log);
    log := log + [InitCursor(initLocal)];
    if initLocal != 0 {
      Note(recorder, Finish(initLocal, FailedInitLocal2), log);
      return -1;
    }
    size := UnwindPhases(w, lib, cursor, callstack, recorder, log);
  }

  /** Whatever libunwind and the memory do: the callstack keeps what it held and stays within its capacity,
      and the last of the events is a finish. */
  lemma UnwindEndsWithFinish(w: World, lib: Libunwind, getContext: int, initLocal: int, cursor: nat -> Regs, cap: nat,
                             stack: seq<Word>)
    requires |stack| <= cap
    ensures var u := Unwound(w, lib, getContext, initLocal, cursor, cap, stack);
            stack <= u.1 && |u.1| <= cap && u.2 != [] && u.2[|u.2| - 1].Finish?
  {
    PhasesEndWithFinish(w, lib, cursor, cap, stack, [Start] + [InitCursor(initLocal)]);
  }

  lemma PhasesEndWithFinish(w: World, lib: Libunwind, cursor: nat -> Regs, cap: nat, stack: seq<Word>,
                            log: seq<TraceEvent>)
    requires |stack| <= cap
    ensures var u := Phases(w, lib, cursor, cap, stack, log);
            stack <= u.1 && |u.1| <= cap && u.2 != [] && u.2[|u.2| - 1].Finish?
  {
    NativeBounded(w, lib, cursor, 0, cap, stack, log);
    var n := NativeWalk(w, lib, cursor, 0, cap, stack, log);
    ManagedEndsWithFinish(w, lib, cursor(n.at), cap, n.stack, n.log);
  }

  lemma ManagedEndsWithFinish(w: World, lib: Libunwind, r: Regs, cap: nat, stack: seq<Word>, log: seq<TraceEvent>)
    requires |stack| <= cap
    ensures var m := ManagedWalk(w, lib, r, cap, stack, log);
            stack <= m.stack && |m.stack| <= cap && m.log != [] && m.log[|m.log| - 1].Finish?
  {
    if |stack| < cap && IsValidFp(r.fp, 0, w.stackBase, w.stackEnd) {
      WalkBounded(w, r.fp, cap, 0, stack + [r.ip], log);
    }
  }
}
