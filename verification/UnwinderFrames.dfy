/** What an unwinding reads of the stack, and the frames it finds there: told by the words of the stack. */
module UnwinderFrames {
  import opened Collections
  import opened Words
  import opened Unwinder

  // --- The words a walk depends on ---

  // The two worlds have the same bounds and code, and both words of the record at v.
  ghost predicate SameRecord(w: World, w': World, v: Word) {
    w.mem(v) == w'.mem(v) && w.mem((v + 8) % WORD) == w'.mem((v + 8) % WORD)
  }

  ghost predicate SameSetting(w: World, w': World) {
    w.stackBase == w'.stackBase && w.stackEnd == w'.stackEnd && w.managed == w'.managed
  }

  ghost predicate SameRecords(w: World, w': World, v: seq<Word>) {
    forall k :: 0 <= k < |v| ==> SameRecord(w, w', v[k])
  }

  lemma SameRest(w: World, w': World, fp: Word, rest: seq<Word>)
    requires SameRecords(w, w', [fp] + rest)
    ensures SameRecord(w, w', fp) && SameRecords(w, w', rest)
  {
    var v := [fp] + rest;
    assert SameRecord(w, w', v[0]);
    forall k | 0 <= k < |rest| ensures SameRecord(w, w', rest[k]) { assert SameRecord(w, w', v[k + 1]); }
  }

  lemma SameFrame(w: World, w': World, fp: Word, cap: nat, native: nat, stack: seq<Word>, log: seq<TraceEvent>)
    requires SameSetting(w, w') && SameRecord(w, w', fp)
    ensures OneFrame(w', fp, cap, native, stack, log) == OneFrame(w, fp, cap, native, stack, log)
  {
  }

  /** A walk reads the two words of each record it visits and nothing else. */
  lemma {:induction false} WalkReadsRecords(w: World, w': World, fp: Word, cap: nat, native: nat, stack: seq<Word>,
                                            log: seq<TraceEvent>)
    requires fp != 0 && SameSetting(w, w') && SameRecords(w, w', Walk(w, fp, cap, native, stack, log).visited)
    ensures Walk(w', fp, cap, native, stack, log) == Walk(w, fp, cap, native, stack, log)
    decreases WORD - fp
  {
    var t := OneFrame(w, fp, cap, native, stack, log);
    var rest := if t.Go? then Walk(w, t.next, cap, t.native, t.stack, t.log).visited else [];
    assert Walk(w, fp, cap, native, stack, log).visited == [fp] + rest;
    SameRest(w, w', fp, rest);
    SameFrame(w, w', fp, cap, native, stack, log);
    if t.Go? { WalkReadsRecords(w, w', t.next, cap, t.native, t.stack, t.log); }
  }

  // The two memories have the same words inside the stack.
  ghost predicate SameStack(w: World, w': World) {
    forall a: Word :: w.stackBase <= a && a + 8 <= w.stackEnd ==> w.mem(a) == w'.mem(a)
  }

  /** When no link leads to the last 16 addresses, nothing outside the stack is read: memory there may hold anything. */
  lemma WalkReadsStack(w: World, w': World, fp: Word, cap: nat, native: nat, stack: seq<Word>, log: seq<TraceEvent>)
    requires IsValidFp(fp, 0, w.stackBase, w.stackEnd) && fp < WORD - 16 && NoWrappingLink(w)
    requires SameSetting(w, w') && SameStack(w, w')
    ensures Walk(w', fp, cap, native, stack, log) == Walk(w, fp, cap, native, stack, log)
  {
    WalkWithin(w, fp, cap, native, stack, log);
    WithinSame(w, w', Walk(w, fp, cap, native, stack, log).visited);
    WalkReadsRecords(w, w', fp, cap, native, stack, log);
  }

  lemma WithinSame(w: World, w': World, v: seq<Word>)
    requires AllWithin(w, v) && SameStack(w, w')
    ensures SameRecords(w, w', v)
  {
    forall k | 0 <= k < |v| ensures SameRecord(w, w', v[k]) {
      assert WithinStack(v[k], w.stackBase, w.stackEnd);
      assert (v[k] + 8) % WORD == v[k] + 8;
    }
  }

  // --- Frames laid out in the stack ---

  // An aligned frame record of two words inside the stack.
  predicate InStack(w: World, a: Word) {
    0 < a && a % 8 == 0 && w.stackBase <= a && a + 16 <= w.stackEnd
  }

  // Frame k has its record at fps[k]: the address of the next record, then its return address ips[k].
  ghost predicate Laid(w: World, fps: seq<Word>, ips: seq<Word>) {
    && |fps| == |ips| > 0
    && (forall k :: 0 <= k < |fps| ==> InStack(w, fps[k]) && w.mem(fps[k] + 8) == ips[k] != 0)
    && (forall k :: 0 < k < |fps| ==> fps[k - 1] < fps[k] && w.mem(fps[k - 1]) == fps[k])
  }

  // The record leads to no other: not upwards, not aligned, out of the stack, or to one without a return address.
  predicate Outermost(w: World, last: Word) {
    var link := w.mem(last);
    || link <= last || link % 8 != 0 || w.stackEnd < link + 16 < WORD
    || (InStack(w, link) && w.mem(link + 8) == 0)
  }

  // What the callstack gets of the return addresses: those that are managed, and 0 for those not known.
  function Known(w: World, ips: seq<Word>): seq<Word> {
    if ips == [] then []
    else
      (match w.managed(ips[0])
       case None => [0 as Word]
       case Some(managed) => if managed then [ips[0]] else []) + Known(w, ips[1..])
  }

  // After native frames in a row, the return addresses hold no more than 8 in a row that are not managed.
  predicate ShortRuns(w: World, ips: seq<Word>, native: nat) {
    ips != [] ==>
      if w.managed(ips[0]) == Some(true) then ShortRuns(w, ips[1..], 0)
      else native < 8 && ShortRuns(w, ips[1..], native + 1)
  }

  lemma KnownOne(w: World, ip: Word)
    ensures Known(w, [ip]) == match w.managed(ip) case None => [0] case Some(managed) => if managed then [ip] else []
  {
    assert [ip][1..] == [] && Known(w, []) == [];
  }

  lemma ReturnsTo(w: World, fps: seq<Word>, ips: seq<Word>)
    requires Laid(w, fps, ips)
    ensures ReturnIp(w, fps[0]) == ips[0] != 0 && fps[0] != 0
  {
    assert InStack(w, fps[0]);
    assert Plus(fps[0], 8) == fps[0] + 8;
  }

  // One frame of the list: its return address is handled and the walk goes on to the next.
  lemma FirstFrame(w: World, fps: seq<Word>, ips: seq<Word>, cap: nat, native: nat, stack: seq<Word>,
                   log: seq<TraceEvent>)
    requires Laid(w, fps, ips) && |stack| <= cap && ShortRuns(w, ips, native)
    ensures var t := OneFrame(w, fps[0], cap, native, stack, log);
            && ReturnIp(w, fps[0]) == ips[0] && fps[0] != 0
            && (|stack + Known(w, ips[..1])| > cap ==> t.Over? && t.r.stack == stack && |stack| == cap)
            && (|stack + Known(w, ips[..1])| <= cap ==>
                  && (t.Go? ==> t.stack == stack + Known(w, ips[..1]) && t.next == w.mem(fps[0]) &&
                                t.log == log + [FrameChainStep(ips[0], fps[0])] && ShortRuns(w, ips[1..], t.native))
                  && (t.Over? ==> t.r.stack == stack + Known(w, ips[..1]))
                  && (t.Go? <==> IsValidFp(w.mem(fps[0]), fps[0], w.stackBase, w.stackEnd)))
  {
    ReturnsTo(w, fps, ips);
    assert ips[..1] == [ips[0]];
    KnownOne(w, ips[0]);
    assert stack + [] == stack;
  }

  lemma LinkValid(w: World, fps: seq<Word>, ips: seq<Word>)
    requires Laid(w, fps, ips) && |fps| > 1
    ensures IsValidFp(fps[1], fps[0], w.stackBase, w.stackEnd) && w.mem(fps[0]) == fps[1]
    ensures Laid(w, fps[1..], ips[1..])
  {
    assert InStack(w, fps[1]) && fps[1 - 1] < fps[1];
    ValidInStack(w, fps[1], fps[0]);
    forall k | 0 < k < |fps[1..]| ensures fps[1..][k - 1] < fps[1..][k] && w.mem(fps[1..][k - 1]) == fps[1..][k] {
      assert fps[1..][k] == fps[k + 1] && fps[1..][k - 1] == fps[(k + 1) - 1];
    }
  }

  lemma ValidInStack(w: World, a: Word, prev: Word)
    requires InStack(w, a) && prev < a
    ensures IsValidFp(a, prev, w.stackBase, w.stackEnd)
  {
    assert Plus(a, 16) == a + 16;
  }

  // Past the outermost record there is nothing to find.
  lemma OutermostEnds(w: World, last: Word, cap: nat, native: nat, stack: seq<Word>, log: seq<TraceEvent>)
    requires InStack(w, last) && Outermost(w, last) && IsValidFp(w.mem(last), last, w.stackBase, w.stackEnd)
    ensures Walk(w, w.mem(last), cap, native, stack, log).stack == stack
  {
    var link := w.mem(last);
    assert link + 16 < WORD ==> Plus(link, 16) == link + 16;
    assert Plus(link, 8) == link + 8;
  }

  lemma {:induction false} KnownCons(w: World, ips: seq<Word>)
    requires ips != []
    ensures Known(w, ips) == Known(w, ips[..1]) + Known(w, ips[1..])
  {
    assert ips[..1][0] == ips[0] && ips[..1][1..] == [];
  }

  lemma CappedPrefix(s: seq<Word>, t: seq<Word>, cap: nat)
    requires |s| == cap
    ensures Capped(s + t, cap) == s
  {
  }

  /** The walk over frames laid out in the stack adds to the callstack exactly their known return addresses, in order
      and as far as there is room: it neither stops early nor goes past the outermost frame. */
  lemma {:induction false} WalkFindsFrames(w: World, fps: seq<Word>, ips: seq<Word>, cap: nat, native: nat,
                                           stack: seq<Word>, log: seq<TraceEvent>)
    requires Laid(w, fps, ips) && Outermost(w, fps[|fps| - 1])
    requires |stack| <= cap && ShortRuns(w, ips, native)
    ensures fps[0] != 0
    ensures Walk(w, fps[0], cap, native, stack, log).stack == Capped(stack + Known(w, ips), cap)
    decreases |fps|
  {
    FirstFrame(w, fps, ips, cap, native, stack, log);
    KnownCons(w, ips);
    var first := Known(w, ips[..1]);
    assert stack + Known(w, ips) == (stack + first) + Known(w, ips[1..]);
    var t := OneFrame(w, fps[0], cap, native, stack, log);
    if |stack + first| > cap {
      CappedPrefix(stack, first + Known(w, ips[1..]), cap);
      assert stack + Known(w, ips) == stack + (first + Known(w, ips[1..]));
    } else if |fps| > 1 {
      LinkValid(w, fps, ips);
      WalkFindsFrames(w, fps[1..], ips[1..], cap, t.native, t.stack, t.log);
    } else {
      assert Known(w, ips[1..]) == [];
      if t.Go? { OutermostEnds(w, fps[0], cap, t.native, t.stack, t.log); }
    }
  }

  // The events of the frames, one for each record.
  function Steps(fps: seq<Word>, ips: seq<Word>): (r: seq<TraceEvent>)
    requires |fps| == |ips|
    ensures |r| == |fps|
  {
    seq(|fps|, k requires 0 <= k < |fps| => FrameChainStep(ips[k], fps[k]))
  }

  // How the walk ends after this record: well at one without a return address, badly at what is no record.
  function EndReason(w: World, last: Word): Reason {
    if w.mem(last) > last && InStack(w, w.mem(last)) then Success else InvalidFp
  }

  lemma LastTrace(w: World, last: Word, ip: Word, cap: nat, native: nat, stack: seq<Word>, log: seq<TraceEvent>)
    requires Laid(w, [last], [ip]) && Outermost(w, last) && |stack| < cap && ShortRuns(w, [ip], native)
    ensures Walk(w, last, cap, native, stack, log).log ==
            log + [FrameChainStep(ip, last)] + [Finish(|stack + Known(w, [ip])|, EndReason(w, last))]
  {
    FirstFrame(w, [last], [ip], cap, native, stack, log);
    assert [ip][..1] == [ip];
    assert InStack(w, [last][0]) && [ip][0] == ip;
    var link := w.mem(last);
    if link > last && InStack(w, link) { ValidInStack(w, link, last); }
    assert link + 16 < WORD ==> Plus(link, 16) == link + 16;
    assert link + 8 < WORD ==> Plus(link, 8) == link + 8;
  }

  lemma StepsCons(log: seq<TraceEvent>, fps: seq<Word>, ips: seq<Word>)
    requires |fps| == |ips| > 0
    ensures log + Steps(fps, ips) == log + [FrameChainStep(ips[0], fps[0])] + Steps(fps[1..], ips[1..])
  {
    var first, rest := [FrameChainStep(ips[0], fps[0])], Steps(fps[1..], ips[1..]);
    assert Steps(fps, ips) == first + rest;
  }

  lemma {:induction false} KnownShort(w: World, ips: seq<Word>)
    ensures |Known(w, ips)| <= |ips|
  {
    if ips != [] { KnownShort(w, ips[1..]); }
  }

  /** With room for all of them the trace tells the frames one by one, each with its return address and its record, and
      then how many addresses there are and how the walk ended. */
  lemma {:induction false} WalkTellsFrames(w: World, fps: seq<Word>, ips: seq<Word>, cap: nat, native: nat,
                                           stack: seq<Word>, log: seq<TraceEvent>)
    requires Laid(w, fps, ips) && Outermost(w, fps[|fps| - 1])
    requires |stack| + |ips| <= cap && ShortRuns(w, ips, native)
    ensures fps[0] != 0
    ensures Walk(w, fps[0], cap, native, stack, log).log ==
            log + Steps(fps, ips) + [Finish(|stack + Known(w, ips)|, EndReason(w, fps[|fps| - 1]))]
    decreases |fps|
  {
    FirstFrame(w, fps, ips, cap, native, stack, log);
    if |fps| == 1 {
      assert fps == [fps[0]] && ips == [ips[0]];
      assert Steps([fps[0]], [ips[0]]) == [FrameChainStep(ips[0], fps[0])];
      LastTrace(w, fps[0], ips[0], cap, native, stack, log);
    } else {
      var t := FrameGoes(w, fps, ips, cap, native, stack, log);
      WalkTellsFrames(w, fps[1..], ips[1..], cap, t.native, t.stack, t.log);
      StepsCons(log, fps, ips);
    }
  }

  lemma FrameGoes(w: World, fps: seq<Word>, ips: seq<Word>, cap: nat, native: nat, stack: seq<Word>,
                  log: seq<TraceEvent>) returns (t: Turn)
    requires Laid(w, fps, ips) && |fps| > 1 && |stack| + |ips| <= cap && ShortRuns(w, ips, native)
    ensures Laid(w, fps[1..], ips[1..]) && t == OneFrame(w, fps[0], cap, native, stack, log) && t.Go?
    ensures t.next == fps[1] && t.log == log + [FrameChainStep(ips[0], fps[0])] && ShortRuns(w, ips[1..], t.native)
    ensures |t.stack| <= |stack| + 1 && t.stack + Known(w, ips[1..]) == stack + Known(w, ips)
  {
    t := OneFrame(w, fps[0], cap, native, stack, log);
    FirstFrame(w, fps, ips, cap, native, stack, log);
    KnownShort(w, ips[..1]);
    LinkValid(w, fps, ips);
    KnownCons(w, ips);
  }

  // --- Native frames ---

  // The addresses the cursor gives from frame k to frame n.
  function Ips(cursor: nat -> Regs, k: nat, n: nat): seq<Word>
    decreases n - k
  {
    if k >= n then [] else [cursor(k).ip] + Ips(cursor, k + 1, n)
  }

  // What the frame at which the native walk ends still adds.
  function LastNative(w: World, r: Regs): seq<Word> {
    if r.getIp != 0 || r.ip < MIN_NATIVE_IP then []
    else match w.managed(r.ip)
      case None => [3 as Word]
      case Some(managed) => if managed then [] else [r.ip]
  }

  /** The native walk puts on the callstack the addresses of the cursor's frames, in order, up to the frame it ends at,
      which adds its own address if it is native and 3 if that is not known, as far as there is room. */
  lemma {:induction false} NativeAddresses(w: World, lib: Libunwind, cursor: nat -> Regs, k: nat, cap: nat,
                                           stack: seq<Word>, log: seq<TraceEvent>)
    requires |stack| <= cap
    ensures var r := NativeWalk(w, lib, cursor, k, cap, stack, log);
            && k <= r.at && (forall i :: k <= i < r.at ==> w.managed(cursor(i).ip) == Some(false))
            && r.stack == Capped(stack + Ips(cursor, k, r.at) + LastNative(w, cursor(r.at)), cap)
            && (r.reached <==> LastNative(w, cursor(r.at)) == [] && cursor(r.at).getIp == 0 &&
                               cursor(r.at).ip >= MIN_NATIVE_IP)
    decreases cap - |stack|
  {
    var (turn, stack1, log1) := OneNative(w, lib, cursor(k), cap, stack, log);
    var r := NativeWalk(w, lib, cursor, k, cap, stack, log);
    if turn.Stepped? {
      NativeAddresses(w, lib, cursor, k + 1, cap, stack1, log1);
      assert stack1 + Ips(cursor, k + 1, r.at) == stack + Ips(cursor, k, r.at);
    } else {
      assert stack + Ips(cursor, k, k) == stack;
    }
  }

  // A native frame that libunwind steps from.
  predicate NativeFrameOk(w: World, r: Regs) {
    r.getIp == 0 && r.ip >= 0x4000 && w.managed(r.ip) == Some(false) && r.step > 0 && !r.isFallback
  }

  // From such a frame the walk goes on to the next, if there is room.
  lemma NativeSteps(w: World, lib: Libunwind, cursor: nat -> Regs, k: nat, cap: nat, stack: seq<Word>,
                    log: seq<TraceEvent>) returns (log1: seq<TraceEvent>)
    requires NativeFrameOk(w, cursor(k)) && |stack| <= cap
    ensures |stack| < cap ==>
              NativeWalk(w, lib, cursor, k, cap, stack, log) ==
              NativeWalk(w, lib, cursor, k + 1, cap, stack + [cursor(k).ip], log1)
    ensures |stack| == cap ==>
              var r := NativeWalk(w, lib, cursor, k, cap, stack, log); r.stack == stack && !r.reached
  {
    log1 := OneNative(w, lib, cursor(k), cap, stack, log).2;
  }

  ghost predicate NativeFrames(w: World, cursor: nat -> Regs, k: nat, m: nat) {
    forall i :: k <= i < m ==> NativeFrameOk(w, cursor(i))
  }

  predicate ManagedFrame(w: World, r: Regs) {
    r.getIp == 0 && r.ip >= 0x4000 && w.managed(r.ip) == Some(true)
  }

  lemma {:induction false} NativeReaches(w: World, lib: Libunwind, cursor: nat -> Regs, k: nat, m: nat, cap: nat,
                                         stack: seq<Word>, log: seq<TraceEvent>)
    requires |stack| <= cap && k <= m && NativeFrames(w, cursor, k, m) && ManagedFrame(w, cursor(m))
    ensures var r := NativeWalk(w, lib, cursor, k, cap, stack, log);
            && r.stack == Capped(stack + Ips(cursor, k, m), cap)
            && (if |stack| + m - k <= cap then r.reached && r.at == m else !r.reached)
    decreases m - k
  {
    if k == m {
      assert stack + Ips(cursor, k, m) == stack;
    } else {
      assert NativeFrameOk(w, cursor(k));
      var log1 := NativeSteps(w, lib, cursor, k, cap, stack, log);
      if |stack| < cap {
        NativeReaches(w, lib, cursor, k + 1, m, cap, stack + [cursor(k).ip], log1);
        IpsCons(stack, cursor, k, m);
      } else {
        CappedPrefix(stack, Ips(cursor, k, m), cap);
      }
    }
  }

  lemma IpsCons(stack: seq<Word>, cursor: nat -> Regs, k: nat, m: nat)
    requires k < m
    ensures stack + Ips(cursor, k, m) == stack + [cursor(k).ip] + Ips(cursor, k + 1, m)
  {
  }

  lemma {:induction false} IpsLength(cursor: nat -> Regs, k: nat, n: nat)
    requires k <= n
    ensures |Ips(cursor, k, n)| == n - k
    decreases n - k
  {
    if k < n { IpsLength(cursor, k + 1, n); }
  }

  lemma ManagedFinds(w: World, lib: Libunwind, r: Regs, fps: seq<Word>, ips: seq<Word>, cap: nat, stack: seq<Word>,
                     log: seq<TraceEvent>)
    requires |stack| <= cap && r.getIp == 0 && r.ip != 0 && r.getFp == 0
    requires Laid(w, fps, ips) && Outermost(w, fps[|fps| - 1]) && r.fp == fps[0] && ShortRuns(w, ips, 0)
    ensures ManagedWalk(w, lib, r, cap, stack, log).stack == Capped(stack + [r.ip] + Known(w, ips), cap)
  {
    ValidInStack(w, fps[0], 0);
    if |stack| < cap {
      WalkFindsFrames(w, fps, ips, cap, 0, stack + [r.ip], log);
    } else {
      assert stack + [r.ip] + Known(w, ips) == stack + ([r.ip] + Known(w, ips));
      CappedPrefix(stack, [r.ip] + Known(w, ips), cap);
    }
  }

  /** One call on a stack of native frames that libunwind steps through, a managed frame, and frame records laid out
      from its frame pointer on: the callstack is their addresses, innermost first, as far as there is room. */
  lemma UnwoundFrames(w: World, lib: Libunwind, cursor: nat -> Regs, m: nat, fps: seq<Word>, ips: seq<Word>, cap: nat)
    requires w.stackBase != 0 && NativeFrames(w, cursor, 0, m) && ManagedFrame(w, cursor(m))
    requires cursor(m).getFp == 0 && |fps| > 0 && cursor(m).fp == fps[0]
    requires Laid(w, fps, ips) && Outermost(w, fps[|fps| - 1]) && ShortRuns(w, ips, 0)
    ensures Unwound(w, lib, 0, 0, cursor, cap, []).1 ==
            Capped(Ips(cursor, 0, m) + [cursor(m).ip] + Known(w, ips), cap)
  {
    assert InStack(w, fps[0]);
    PhasesFind(w, lib, cursor, m, fps, ips, cap, [Start] + [InitCursor(0)]);
  }

  lemma PhasesFind(w: World, lib: Libunwind, cursor: nat -> Regs, m: nat, fps: seq<Word>, ips: seq<Word>, cap: nat,
                   log: seq<TraceEvent>)
    requires NativeFrames(w, cursor, 0, m) && ManagedFrame(w, cursor(m))
    requires cursor(m).getFp == 0 && |fps| > 0 && cursor(m).fp == fps[0]
    requires Laid(w, fps, ips) && Outermost(w, fps[|fps| - 1]) && ShortRuns(w, ips, 0)
    ensures Phases(w, lib, cursor, cap, [], log).1 == Capped(Ips(cursor, 0, m) + [cursor(m).ip] + Known(w, ips), cap)
  {
    var n, native := NativeWalk(w, lib, cursor, 0, cap, [], log), Ips(cursor, 0, m);
    FromNothing(w, lib, cursor, m, cap, log);
    if m <= cap {
      ManagedFinds(w, lib, cursor(m), fps, ips, cap, native, n.log);
    } else {
      CappedThrice(native, [cursor(m).ip], Known(w, ips), cap);
    }
  }

  lemma FromNothing(w: World, lib: Libunwind, cursor: nat -> Regs, m: nat, cap: nat, log: seq<TraceEvent>)
    requires NativeFrames(w, cursor, 0, m) && ManagedFrame(w, cursor(m))
    ensures var n, native := NativeWalk(w, lib, cursor, 0, cap, [], log), Ips(cursor, 0, m);
            if m <= cap then n.reached && n.at == m && n.stack == native && |native| <= cap
            else !n.reached && n.stack == Capped(native, cap) && |native| > cap
  {
    NativeReaches(w, lib, cursor, 0, m, cap, [], log);
    IpsLength(cursor, 0, m);
    assert [] + Ips(cursor, 0, m) == Ips(cursor, 0, m);
  }

  lemma CappedThrice(s: seq<Word>, t: seq<Word>, u: seq<Word>, cap: nat)
    requires |s| > cap
    ensures Capped(s + t + u, cap) == Capped(s, cap)
  {
    assert s + t + u == s + (t + u);
    CappedLonger(s, t + u, cap);
  }

  lemma CappedLonger(s: seq<Word>, t: seq<Word>, cap: nat)
    requires |s| > cap
    ensures Capped(s + t, cap) == Capped(s, cap)
  {
  }
}
