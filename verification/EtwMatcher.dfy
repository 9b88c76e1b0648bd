/** Matching ETW events with the stack walks that follow them, thread by thread. */
module EtwMatcher {
  import opened Collections
  import opened Words

  const KEYWORD_STACKWALK := 0x40000000
  const KEYWORD_CONTENTION := 0x4000
  const KEYWORD_GC := 0x1
  const EVENT_CONTENTION_START := 81
  const EVENT_CONTENTION_STOP := 91
  const EVENT_ALLOCATION_TICK := 10

  const FAKE_CONTENTION_IP: nat := 1
  const FAKE_ALLOCATION_IP: nat := 2

  datatype Event = Event(t: int, tid: nat, keyword: nat, id: nat, data: seq<Byte>)

  /** Which listeners there are, whether events are replayed, and the conversion of timestamps. */
  datatype Setup = Setup(allocations: bool, contentions: bool, replay: bool, epoch: int -> int)

  datatype EventId = Unknown | ContentionStart | AllocationTick

  datatype Tick = Tick(t: int, kind: nat, typeName: seq<nat>, amount: nat)

  datatype Info = Info(last: EventId, contentionStack: seq<nat>, contentionStart: int, allocationStack: seq<nat>,
                       tick: Tick)

  const BLANK := Info(Unknown, [], 0, [], Tick(0, 0, [], 0))

  /** What the listeners are told. The class id is always 0. */
  datatype Note =
    | Allocation(tid: nat, tick: Tick, stack: seq<nat>)
    | Contention(tid: nat, t: int, duration: int, stack: seq<nat>)

  // --- Payloads ---

  function Le(data: seq<Byte>, off: nat, n: nat): nat
    requires off + n <= |data|
  {
    FromBytes(data[off..off + n])
  }

  const STACK_HEADER := 8
  const ADDRESS_SIZE := 8

  // How many frames the first n bytes hold: the count in the header, if that many fit.
  function FrameCount(data: seq<Byte>): (r: nat)
    ensures r > 0 ==> STACK_HEADER + ADDRESS_SIZE * r <= |data|
  {
    var n := |data| % 0x10000;
    if n < STACK_HEADER + ADDRESS_SIZE then 0
    else
      var count := Le(data, 4, 4);
      if count > (n - STACK_HEADER) / ADDRESS_SIZE then 0 else count
  }

  function Frames(data: seq<Byte>): (r: seq<nat>)
    ensures |r| == FrameCount(data)
  {
    seq(FrameCount(data),
        k requires 0 <= k < FrameCount(data) => Le(data, STACK_HEADER + ADDRESS_SIZE * k, ADDRESS_SIZE))
  }

  // Clears the stack and appends the frames one by one; every frame read lies within the payload.
  method AttachCallstack(data: seq<Byte>) returns (stack: seq<nat>)
    ensures stack == Frames(data)
  {
    stack := [];
    var n := |data| % 0x10000;
    if n == 0 {
      return;
    }
    if n < STACK_HEADER + ADDRESS_SIZE {
      return;
    }
    var count := Le(data, 4, 4);
    var maxFrames := (n - STACK_HEADER) / ADDRESS_SIZE;
    if count > maxFrames {
      return;
    }
    var i := 0;
    while i < count
      invariant 0 <= i <= count && stack == Frames(data)[..i]
    {
      stack := stack + [Le(data, STACK_HEADER + ADDRESS_SIZE * i, ADDRESS_SIZE)];
      i := i + 1;
    }
  }

  const TICK_FIXED := 26

  // The length of the name at the end of the payload: the place of its terminator.
  function NameEnd(data: seq<Byte>, k: nat): (r: Option<nat>)
    requires TICK_FIXED <= |data|
    ensures r.Some? ==> k <= r.value && TICK_FIXED + 2 * r.value + 2 <= |data|
    decreases |data| - k
  {
    if TICK_FIXED + 2 * k + 2 > |data| then None
    else if Le(data, TICK_FIXED + 2 * k, 2) == 0 then Some(k)
    else NameEnd(data, k + 1)
  }

  // The fields of an allocation tick; none if it is too short or its name is not terminated.
  function ReadTick(epoch: int -> int, e: Event): Option<Tick> {
    if |e.data| < TICK_FIXED then None
    else
      match NameEnd(e.data, 0)
      case None => None
      case Some(n) =>
        Some(Tick(epoch(e.t), Le(e.data, 4, 4),
                  seq(n, k requires 0 <= k < n => Le(e.data, TICK_FIXED + 2 * k, 2)), Le(e.data, 10, 8)))
  }

  // --- Reading a payload inverts writing it ---

  function Packed(vs: seq<nat>, size: nat): seq<Byte> {
    if vs == [] then [] else ToBytes(vs[0], size) + Packed(vs[1..], size)
  }

  lemma {:induction false} PackedLength(vs: seq<nat>, size: nat)
    ensures |Packed(vs, size)| == size * |vs|
  {
    if vs != [] {
      PackedLength(vs[1..], size);
      assert size * |vs| == size + size * |vs[1..]|;
    }
  }

  lemma TailSlice(a: seq<Byte>, b: seq<Byte>, j: nat, n: nat)
    requires j + n <= |b|
    ensures (a + b)[|a| + j..|a| + j + n] == b[j..j + n]
  {
  }

  lemma {:induction false} PackedAt(vs: seq<nat>, size: nat, k: nat)
    requires k < |vs|
    ensures size * k + size <= |Packed(vs, size)| && Packed(vs, size)[size * k..size * k + size] == ToBytes(vs[k], size)
  {
    var first, rest := ToBytes(vs[0], size), Packed(vs[1..], size);
    if k == 0 {
      assert (first + rest)[..size] == first;
    } else {
      PackedAt(vs[1..], size, k - 1);
      assert size * k == size + size * (k - 1);
      TailSlice(first, rest, size * (k - 1), size);
    }
  }

  // A stack walk as it is sent: four bytes, the number of frames, the frames.
  function WalkPayload(head: seq<Byte>, frames: seq<nat>): seq<Byte> {
    head + ToBytes(|frames|, 4) + Packed(frames, ADDRESS_SIZE)
  }

  /** Whatever was sent comes back: exactly the frames, in order. */
  lemma FramesRoundTrip(head: seq<Byte>, frames: seq<nat>)
    requires |head| == 4 && STACK_HEADER + ADDRESS_SIZE * |frames| < 0x10000
    requires forall k :: 0 <= k < |frames| ==> frames[k] < WORD
    ensures Frames(WalkPayload(head, frames)) == frames
  {
    var data := WalkPayload(head, frames);
    PackedLength(frames, ADDRESS_SIZE);
    CountBack(head, ToBytes(|frames|, 4), Packed(frames, ADDRESS_SIZE), |frames|);
    assert FrameCount(data) == |frames|;
    forall k | 0 <= k < |frames| ensures Frames(data)[k] == frames[k] { FrameBack(head, frames, k); }
  }

  lemma CountBack(head: seq<Byte>, count: seq<Byte>, rest: seq<Byte>, n: nat)
    requires |head| == 4 && count == ToBytes(n, 4) && n < 0x10000
    ensures Le(head + count + rest, 4, 4) == n
  {
    assert (head + count + rest)[4..8] == count;
    FitsIn(n, 4);
    BytesRoundTrip(n, 4);
  }

  lemma FitsIn(v: nat, n: nat)
    requires n >= 2 && v < 0x10000
    ensures v < Pow2(8 * n)
  {
    Pow2Small();
    if n > 2 { Pow2Mono(16, 8 * n); }
  }

  lemma FrameBack(head: seq<Byte>, frames: seq<nat>, k: nat)
    requires |head| == 4 && k < |frames| && frames[k] < WORD
    ensures |WalkPayload(head, frames)| == STACK_HEADER + ADDRESS_SIZE * |frames|
    ensures Le(WalkPayload(head, frames), STACK_HEADER + ADDRESS_SIZE * k, ADDRESS_SIZE) == frames[k]
  {
    PackedLength(frames, ADDRESS_SIZE);
    PackedAt(frames, ADDRESS_SIZE, k);
    TailSlice(head + ToBytes(|frames|, 4), Packed(frames, ADDRESS_SIZE), ADDRESS_SIZE * k, ADDRESS_SIZE);
    Pow2Values();
    BytesRoundTrip(frames[k], ADDRESS_SIZE);
  }

  // An allocation tick as it is sent: the fixed fields, the name with its terminator, whatever follows.
  function TickPayload(fixed: seq<Byte>, name: seq<nat>, rest: seq<Byte>): seq<Byte> {
    fixed + (Packed(name, 2) + ([0, 0] + rest))
  }

  function TickFields(amount32: nat, kind: nat, instance: nat, amount: nat, typeId: nat): (r: seq<Byte>)
    ensures |r| == TICK_FIXED
  {
    ToBytes(amount32, 4) + ToBytes(kind, 4) + ToBytes(instance, 2) + ToBytes(amount, 8) + ToBytes(typeId, 8)
  }

  lemma UnitBack(fixed: seq<Byte>, name: seq<nat>, rest: seq<Byte>, k: nat)
    requires |fixed| == TICK_FIXED && k <= |name| && forall i :: 0 <= i < |name| ==> 0 < name[i] < 0x10000
    ensures |TickPayload(fixed, name, rest)| == TICK_FIXED + 2 * |name| + 2 + |rest|
    ensures Le(TickPayload(fixed, name, rest), TICK_FIXED + 2 * k, 2) == if k < |name| then name[k] else 0
  {
    var data, p := TickPayload(fixed, name, rest), Packed(name, 2);
    PackedLength(name, 2);
    if k < |name| {
      PackedAt(name, 2, k);
      TailSlice(fixed, p + ([0, 0] + rest), 2 * k, 2);
      assert (p + ([0, 0] + rest))[2 * k..2 * k + 2] == p[2 * k..2 * k + 2];
      FitsIn(name[k], 2);
      BytesRoundTrip(name[k], 2);
    } else {
      assert data[TICK_FIXED + 2 * k..TICK_FIXED + 2 * k + 2] == [0, 0];
      assert FromBytes([0, 0]) == 0 by { assert [0, 0][1..] == [0] && [0][1..] == [] && FromBytes([]) == 0; }
    }
  }

  lemma {:induction false} NameBack(fixed: seq<Byte>, name: seq<nat>, rest: seq<Byte>, k: nat)
    requires |fixed| == TICK_FIXED && k <= |name| && forall i :: 0 <= i < |name| ==> 0 < name[i] < 0x10000
    ensures |TickPayload(fixed, name, rest)| == TICK_FIXED + 2 * |name| + 2 + |rest|
    ensures NameEnd(TickPayload(fixed, name, rest), k) == Some(|name|)
    decreases |name| - k
  {
    UnitBack(fixed, name, rest, k);
    if k < |name| { NameBack(fixed, name, rest, k + 1); }
  }

  lemma FieldsBack(amount32: nat, kind: nat, instance: nat, amount: nat, typeId: nat, tail: seq<Byte>)
    requires kind < 0x1_0000_0000 && amount < WORD
    ensures var data := TickFields(amount32, kind, instance, amount, typeId) + tail;
            Le(data, 4, 4) == kind && Le(data, 10, 8) == amount
  {
    var data := TickFields(amount32, kind, instance, amount, typeId) + tail;
    assert data[4..8] == ToBytes(kind, 4);
    assert data[10..18] == ToBytes(amount, 8);
    Pow2Values();
    Pow2Small();
    BytesRoundTrip(kind, 4);
    BytesRoundTrip(amount, 8);
  }

  /** Whatever was sent comes back: the kind, the 64-bit amount and the name. */
  lemma TickRoundTrip(u: Setup, e: Event, amount32: nat, kind: nat, instance: nat, amount: nat, typeId: nat,
                      name: seq<nat>, rest: seq<Byte>)
    requires kind < 0x1_0000_0000 && amount < WORD && forall i :: 0 <= i < |name| ==> 0 < name[i] < 0x10000
    requires e.data == TickPayload(TickFields(amount32, kind, instance, amount, typeId), name, rest)
    ensures ReadTick(u.epoch, e) == Some(Tick(u.epoch(e.t), kind, name, amount))
  {
    var fixed := TickFields(amount32, kind, instance, amount, typeId);
    NameBack(fixed, name, rest, 0);
    FieldsBack(amount32, kind, instance, amount, typeId, Packed(name, 2) + ([0, 0] + rest));
    var read := ReadTick(u.epoch, e).value.typeName;
    forall k | 0 <= k < |name| ensures read[k] == name[k] { UnitBack(fixed, name, rest, k); }
    assert read == name;
  }

  // --- One event on one thread ---

  predicate IsWalk(e: Event) {
    e.keyword == KEYWORD_STACKWALK
  }

  predicate IsStart(u: Setup, e: Event) {
    u.contentions && e.keyword == KEYWORD_CONTENTION && e.id == EVENT_CONTENTION_START
  }

  predicate IsStop(u: Setup, e: Event) {
    u.contentions && e.keyword == KEYWORD_CONTENTION && e.id == EVENT_CONTENTION_STOP
  }

  predicate IsTick(u: Setup, e: Event) {
    u.allocations && e.keyword == KEYWORD_GC && e.id == EVENT_ALLOCATION_TICK
  }

  function StackOf(u: Setup, e: Event, fake: nat): seq<nat> {
    if u.replay then [fake] else Frames(e.data)
  }

  function StepThread(u: Setup, i: Info, e: Event): (Info, seq<Note>) {
    if IsWalk(e) then
      if i.last == ContentionStart then
        (i.(last := Unknown, contentionStack := StackOf(u, e, FAKE_CONTENTION_IP)), [])
      else if i.last == AllocationTick && u.allocations then
        var stack := StackOf(u, e, FAKE_ALLOCATION_IP);
        (i.(last := Unknown, allocationStack := stack), [Allocation(e.tid, i.tick, stack)])
      else (i.(last := Unknown), [])
    else if IsStart(u, e) then (i.(contentionStart := e.t, last := ContentionStart), [])
    else if IsStop(u, e) then
      if i.contentionStart != 0 then
        (i.(last := Unknown, contentionStart := 0),
         [Contention(e.tid, u.epoch(e.t), e.t - i.contentionStart, i.contentionStack)])
      else (i.(last := Unknown), [])
    else if IsTick(u, e) then
      match ReadTick(u.epoch, e)
      case None => (i.(last := Unknown), [])
      case Some(tick) => (i.(last := AllocationTick, tick := tick), [])
    else (i, [])
  }

  function Get(m: map<nat, Info>, tid: nat): Info {
    if tid in m then m[tid] else BLANK
  }

  // A stop finds no record where there is none; other events of interest create it.
  predicate Touches(u: Setup, m: map<nat, Info>, e: Event) {
    IsWalk(e) || IsStart(u, e) || IsTick(u, e) || (IsStop(u, e) && e.tid in m)
  }

  function Step(u: Setup, m: map<nat, Info>, e: Event): (map<nat, Info>, seq<Note>) {
    if !Touches(u, m, e) then (m, [])
    else var (i, notes) := StepThread(u, Get(m, e.tid), e); (m[e.tid := i], notes)
  }

  lemma Overwritten<K, V>(m: map<K, V>, k: K, a: V, b: V)
    ensures m[k := a][k := b] == m[k := b]
  {
  }

  class Manager {
    const setup: Setup
    var threads: map<nat, Info>

    constructor (setup: Setup)
      ensures this.setup == setup && threads == map[]
    {
      this.setup := setup;
      threads := map[];
    }

    method GetOrCreate(tid: nat) returns (i: Info)
      modifies this
      ensures i == Get(old(threads), tid) && threads == old(threads)[tid := i]
    {
      if tid !in threads {
        threads := threads[tid := BLANK];
      }
      i := threads[tid];
      assert threads == old(threads)[tid := i];
    }

    method OnEvent(e: Event) returns (notes: seq<Note>)
      modifies this
      ensures threads == Step(setup, old(threads), e).0 && notes == Step(setup, old(threads), e).1
    {
      notes := [];
      if e.keyword == KEYWORD_STACKWALK {
        notes := OnStackWalk(e);
      } else if e.keyword == KEYWORD_CONTENTION {
        if !setup.contentions {
          return;
        }
        if e.id == EVENT_CONTENTION_START {
          var i := GetOrCreate(e.tid);
          Overwritten(old(threads), e.tid, i, i.(contentionStart := e.t, last := ContentionStart));
          threads := threads[e.tid := i.(contentionStart := e.t, last := ContentionStart)];
        } else if e.id == EVENT_CONTENTION_STOP {
          notes := OnContentionStop(e);
        }
      } else if e.keyword == KEYWORD_GC {
        if e.id == EVENT_ALLOCATION_TICK {
          if !setup.allocations {
            return;
          }
          OnAllocationTick(e);
        }
      }
    }

    method OnStackWalk(e: Event) returns (notes: seq<Note>)
      requires IsWalk(e)
      modifies this
      ensures threads == Step(setup, old(threads), e).0 && notes == Step(setup, old(threads), e).1
    {
      notes := [];
      var i := GetOrCreate(e.tid);
      if i.last == ContentionStart {
        var stack := Attach(e, FAKE_CONTENTION_IP);
        i := i.(contentionStack := stack);
      } else if i.last == AllocationTick {
        if setup.allocations {
          var stack := Attach(e, FAKE_ALLOCATION_IP);
          i := i.(allocationStack := stack);
          notes := [Allocation(e.tid, i.tick, i.allocationStack)];
        }
      }
      Overwritten(old(threads), e.tid, Get(old(threads), e.tid), i.(last := Unknown));
      threads := threads[e.tid := i.(last := Unknown)];
    }

    method Attach(e: Event, fake: nat) returns (stack: seq<nat>)
      ensures stack == StackOf(setup, e, fake)
      ensures stack == if setup.replay then [fake] else Frames(e.data)
    {
      if setup.replay {
        stack := [fake];
      } else {
        stack := AttachCallstack(e.data);
      }
    }

    method OnContentionStop(e: Event) returns (notes: seq<Note>)
      requires IsStop(setup, e)
      modifies this
      ensures threads == Step(setup, old(threads), e).0 && notes == Step(setup, old(threads), e).1
    {
      notes := [];
      if e.tid in threads {
        var i := threads[e.tid].(last := Unknown);
        if i.contentionStart != 0 {
          notes := [Contention(e.tid, setup.epoch(e.t), e.t - i.contentionStart, i.contentionStack)];
          i := i.(contentionStart := 0);
        }
        threads := threads[e.tid := i];
      }
    }

    method OnAllocationTick(e: Event)
      requires IsTick(setup, e)
      modifies this
      ensures threads == Step(setup, old(threads), e).0 && Step(setup, old(threads), e).1 == []
    {
      var i := GetOrCreate(e.tid);
      var tick := ReadTick(setup.epoch, e);
      var i' := if tick.None? then i.(last := Unknown) else i.(last := AllocationTick, tick := tick.value);
      Overwritten(old(threads), e.tid, i, i');
      threads := threads[e.tid := i'];
    }
  }

  // --- Demultiplexing ---

  function Run(u: Setup, m: map<nat, Info>, es: seq<Event>): (map<nat, Info>, seq<Note>)
    decreases |es|
  {
    if es == [] then (m, [])
    else var (m1, n1) := Step(u, m, es[0]); var (m2, n2) := Run(u, m1, es[1..]); (m2, n1 + n2)
  }

  function RunThread(u: Setup, i: Info, es: seq<Event>): (Info, seq<Note>)
    decreases |es|
  {
    if es == [] then (i, [])
    else var (i1, n1) := StepThread(u, i, es[0]); var (i2, n2) := RunThread(u, i1, es[1..]); (i2, n1 + n2)
  }

  function Of(es: seq<Event>, tid: nat): seq<Event> {
    if es == [] then [] else (if es[0].tid == tid then [es[0]] else []) + Of(es[1..], tid)
  }

  function Told(notes: seq<Note>, tid: nat): seq<Note> {
    if notes == [] then [] else (if notes[0].tid == tid then [notes[0]] else []) + Told(notes[1..], tid)
  }

  lemma ToldCons(n: Note, notes: seq<Note>, tid: nat)
    ensures Told([n] + notes, tid) == (if n.tid == tid then [n] else []) + Told(notes, tid)
  {
    assert ([n] + notes)[1..] == notes;
  }

  lemma {:induction false} ToldConcat(a: seq<Note>, b: seq<Note>, tid: nat)
    ensures Told(a + b, tid) == Told(a, tid) + Told(b, tid)
  {
    if a == [] {
      assert a + b == b;
    } else {
      ToldConcat(a[1..], b, tid);
      assert a + b == [a[0]] + (a[1..] + b) && a == [a[0]] + a[1..];
      ToldCons(a[0], a[1..] + b, tid);
      ToldCons(a[0], a[1..], tid);
    }
  }

  // A blank record is as good as none.
  lemma StepSplits(u: Setup, m: map<nat, Info>, e: Event, tid: nat)
    ensures var (m', notes) := Step(u, m, e);
            if e.tid == tid then
              Get(m', tid) == StepThread(u, Get(m, tid), e).0 && Told(notes, tid) == StepThread(u, Get(m, tid), e).1
            else Get(m', tid) == Get(m, tid) && Told(notes, tid) == []
  {
    var notes := Step(u, m, e).1;
    assert notes == [] || notes == [notes[0]] + [];
    if notes != [] { ToldCons(notes[0], [], tid); }
  }

  /** What is told of a thread, and its record, depend on nothing but the events of that thread, in
      whatever way the threads' events are interleaved. */
  lemma {:induction false} Demultiplex(u: Setup, m: map<nat, Info>, es: seq<Event>, tid: nat)
    ensures Get(Run(u, m, es).0, tid) == RunThread(u, Get(m, tid), Of(es, tid)).0
    ensures Told(Run(u, m, es).1, tid) == RunThread(u, Get(m, tid), Of(es, tid)).1
    decreases |es|
  {
    if es != [] {
      var (m1, n1) := Step(u, m, es[0]);
      StepSplits(u, m, es[0], tid);
      Demultiplex(u, m1, es[1..], tid);
      ToldConcat(n1, Run(u, m1, es[1..]).1, tid);
      if es[0].tid == tid {
        assert Of(es, tid)[1..] == Of(es[1..], tid);
      } else {
        assert Of(es, tid) == Of(es[1..], tid);
      }
    }
  }

  // --- What a thread's record stands for ---

  function InfoAt(u: Setup, es: seq<Event>, k: nat): Info
    requires k <= |es|
  {
    if k == 0 then BLANK else StepThread(u, InfoAt(u, es, k - 1), es[k - 1]).0
  }

  function NotesAt(u: Setup, es: seq<Event>, k: nat): seq<Note>
    requires k < |es|
  {
    StepThread(u, InfoAt(u, es, k), es[k]).1
  }

  function NotesFrom(u: Setup, es: seq<Event>, k: nat): seq<Note>
    requires k <= |es|
    decreases |es| - k
  {
    if k == |es| then [] else NotesAt(u, es, k) + NotesFrom(u, es, k + 1)
  }

  /** A thread's run is its events one by one. */
  lemma {:induction false} RunIsSteps(u: Setup, es: seq<Event>, k: nat)
    requires k <= |es|
    ensures RunThread(u, InfoAt(u, es, k), es[k..]).0 == InfoAt(u, es, |es|)
    ensures RunThread(u, InfoAt(u, es, k), es[k..]).1 == NotesFrom(u, es, k)
    decreases |es| - k
  {
    if k < |es| {
      RunIsSteps(u, es, k + 1);
      assert es[k..][1..] == es[k + 1..];
    }
  }

  predicate Relevant(u: Setup, e: Event) {
    IsWalk(e) || IsStart(u, e) || IsStop(u, e) || IsTick(u, e)
  }

  // The latest relevant event before the k-th, or -1.
  function Previous(u: Setup, es: seq<Event>, k: nat): (j: int)
    requires k <= |es|
    ensures -1 <= j < k && (0 <= j ==> Relevant(u, es[j]))
    ensures forall i :: 0 <= i < k && j < i ==> !Relevant(u, es[i])
  {
    if k == 0 then -1 else if Relevant(u, es[k - 1]) then k - 1 else Previous(u, es, k - 1)
  }

  // The contention that is open before the k-th event: the latest start with no stop after it, or -1.
  function OpenStart(u: Setup, es: seq<Event>, k: nat): (j: int)
    requires k <= |es|
    ensures -1 <= j < k && (0 <= j ==> IsStart(u, es[j]))
    ensures 0 <= j ==> forall i :: j < i < k ==> !IsStart(u, es[i]) && !IsStop(u, es[i])
  {
    if k == 0 then -1
    else if IsStart(u, es[k - 1]) then k - 1
    else if IsStop(u, es[k - 1]) then -1
    else OpenStart(u, es, k - 1)
  }

  predicate AfterTick(u: Setup, es: seq<Event>, k: nat)
    requires k <= |es|
  {
    var j := Previous(u, es, k);
    0 <= j && !IsWalk(es[j]) && IsTick(u, es[j]) && ReadTick(u.epoch, es[j]).Some?
  }

  predicate AfterStart(u: Setup, es: seq<Event>, k: nat)
    requires k <= |es|
  {
    var j := Previous(u, es, k);
    0 <= j && IsStart(u, es[j])
  }

  // The latest walk that follows a contention start with nothing relevant between, or -1.
  function AttachedWalk(u: Setup, es: seq<Event>, k: nat): (w: int)
    requires k <= |es|
    ensures -1 <= w < k && (0 <= w ==> IsWalk(es[w]) && AfterStart(u, es, w))
    ensures forall i :: 0 <= i < k && w < i && IsWalk(es[i]) ==> !AfterStart(u, es, i)
  {
    if k == 0 then -1
    else if IsWalk(es[k - 1]) && AfterStart(u, es, k - 1) then k - 1
    else AttachedWalk(u, es, k - 1)
  }

  ghost predicate StandsLast(u: Setup, es: seq<Event>, k: nat)
    requires k <= |es|
  {
    var i := InfoAt(u, es, k);
    && (i.last == ContentionStart <==> AfterStart(u, es, k))
    && (i.last == AllocationTick <==> AfterTick(u, es, k))
    && (AfterTick(u, es, k) ==> Some(i.tick) == ReadTick(u.epoch, es[Previous(u, es, k)]))
  }

  lemma {:induction false} LastStands(u: Setup, es: seq<Event>, k: nat)
    requires k <= |es|
    ensures StandsLast(u, es, k)
  {
    if k > 0 {
      LastStands(u, es, k - 1);
      if !Relevant(u, es[k - 1]) { assert Previous(u, es, k) == Previous(u, es, k - 1); }
    }
  }

  lemma {:induction false} OpenStands(u: Setup, es: seq<Event>, k: nat)
    requires k <= |es|
    ensures InfoAt(u, es, k).contentionStart == if OpenStart(u, es, k) >= 0 then es[OpenStart(u, es, k)].t else 0
  {
    if k > 0 { OpenStands(u, es, k - 1); }
  }

  function ContentionStack(u: Setup, es: seq<Event>, k: nat): seq<nat>
    requires k <= |es|
  {
    var w := AttachedWalk(u, es, k);
    if w >= 0 then StackOf(u, es[w], FAKE_CONTENTION_IP) else []
  }

  lemma {:induction false} StackStands(u: Setup, es: seq<Event>, k: nat)
    requires k <= |es|
    ensures InfoAt(u, es, k).contentionStack == ContentionStack(u, es, k)
  {
    if k > 0 {
      StackStands(u, es, k - 1);
      LastStands(u, es, k - 1);
    }
  }

  // --- Allocations ---

  /** An allocation is told exactly at a stack walk whose latest relevant event is a well-formed tick: with
      that tick's own fields and that walk's stack. */
  lemma AllocationExactly(u: Setup, es: seq<Event>, k: nat)
    requires k < |es|
    ensures (exists n :: n in NotesAt(u, es, k) && n.Allocation?) <==> IsWalk(es[k]) && AfterTick(u, es, k)
    ensures IsWalk(es[k]) && AfterTick(u, es, k) ==>
              NotesAt(u, es, k) ==
              [Allocation(es[k].tid, ReadTick(u.epoch, es[Previous(u, es, k)]).value,
                          if u.replay then [2] else Frames(es[k].data))]
  {
    LastStands(u, es, k);
    var notes := NotesAt(u, es, k);
    if |notes| == 1 { assert notes[0] in notes; }
  }

  /** No tick is told twice. */
  lemma TickToldOnce(u: Setup, es: seq<Event>, k: nat, k': nat)
    requires k < k' < |es| && IsWalk(es[k]) && AfterTick(u, es, k) && IsWalk(es[k']) && AfterTick(u, es, k')
    ensures Previous(u, es, k) < k < Previous(u, es, k')
  {
    assert Relevant(u, es[k]);
  }

  // --- Contentions ---

  /** A contention is told exactly at a stop after an open start whose time is not zero: from the latest
      start to the stop, with the stack of the latest walk that followed a start. */
  lemma {:induction false} ContentionExactly(u: Setup, es: seq<Event>, k: nat)
    requires k < |es|
    ensures var j := OpenStart(u, es, k);
            (exists n :: n in NotesAt(u, es, k) && n.Contention?) <==> IsStop(u, es[k]) && j >= 0 && es[j].t != 0
    ensures forall n :: n in NotesAt(u, es, k) && n.Contention? ==>
              OpenStart(u, es, k) >= 0 &&
              n == Contention(es[k].tid, u.epoch(es[k].t), es[k].t - es[OpenStart(u, es, k)].t,
                              var w := AttachedWalk(u, es, k);
                              if w < 0 then [] else if u.replay then [1] else Frames(es[w].data))
    ensures |NotesAt(u, es, k)| <= 1
  {
    OpenStands(u, es, k);
    StackStands(u, es, k);
    var notes := NotesAt(u, es, k);
    if |notes| == 1 { assert notes[0] in notes; }
  }

  // The start has a walk of its own: the next relevant event after it, before the k-th.
  ghost predicate OwnWalk(u: Setup, es: seq<Event>, j: nat, k: nat)
    requires k <= |es|
  {
    exists i :: j < i < k && IsWalk(es[i]) && Previous(u, es, i) == j
  }

  /** The stack told with a contention is of that contention exactly when its start has a walk of its own;
      otherwise it is left over from an earlier one. */
  lemma StackIsOwnExactly(u: Setup, es: seq<Event>, k: nat)
    requires k <= |es| && OpenStart(u, es, k) >= 0
    ensures AttachedWalk(u, es, k) > OpenStart(u, es, k) <==> OwnWalk(u, es, OpenStart(u, es, k), k)
  {
    var j, w := OpenStart(u, es, k), AttachedWalk(u, es, k);
    if w > j {
      assert Relevant(u, es[j]);
      assert Previous(u, es, w) == j;
    }
    if OwnWalk(u, es, j, k) {
      var i :| j < i < k && IsWalk(es[i]) && Previous(u, es, i) == j;
      assert AfterStart(u, es, i);
    }
  }

  /** The second contention of a thread, without a walk of its own, is told with the stack of the first. */
  lemma StackLeftOver(u: Setup, start: Event, walk: Event, stop: Event)
    requires IsStart(u, start) && IsWalk(walk) && IsStop(u, stop) && start.t != 0
    ensures var es := [start, walk, stop, start, stop];
            OpenStart(u, es, 4) == 3 && AttachedWalk(u, es, 4) == 1 &&
            NotesAt(u, es, 4) ==
            [Contention(stop.tid, u.epoch(stop.t), stop.t - start.t, StackOf(u, walk, FAKE_CONTENTION_IP))]
  {
    var es := [start, walk, stop, start, stop];
    assert Previous(u, es, 1) == 0;
    assert AttachedWalk(u, es, 2) == 1;
    assert AttachedWalk(u, es, 3) == 1;
    assert AttachedWalk(u, es, 4) == 1;
    StackStands(u, es, 4);
    OpenStands(u, es, 4);
  }
}
