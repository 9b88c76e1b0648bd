/** From what the runtime sends to what the listeners are told: ticks, contentions and stack walks by their payloads. */
module EtwSent {
  import opened Collections
  import opened Words
  import opened EtwMatcher

  // --- Events as they are sent ---

  // A stack walk with these frames.
  ghost predicate SendsWalk(e: Event, frames: seq<nat>) {
    && e.keyword == 0x4000_0000 && 8 + 8 * |frames| < 0x1_0000 && (forall k :: 0 <= k < |frames| ==> frames[k] < WORD)
    && exists head :: |head| == 4 && e.data == WalkPayload(head, frames)
  }

  // An allocation tick with this kind, type name and 64-bit amount.
  ghost predicate SendsTick(e: Event, kind: nat, name: seq<nat>, amount: nat) {
    && e.keyword == 0x1 && e.id == 10 && kind < 0x1_0000_0000 && amount < WORD
    && (forall i :: 0 <= i < |name| ==> 0 < name[i] < 0x1_0000)
    && exists amount32, instance, typeId, rest ::
         e.data == TickPayload(TickFields(amount32, kind, instance, amount, typeId), name, rest)
  }

  predicate SendsStart(e: Event) {
    e.keyword == 0x4000 && e.id == 81
  }

  predicate SendsStop(e: Event) {
    e.keyword == 0x4000 && e.id == 91
  }

  lemma WalkRead(e: Event, frames: seq<nat>)
    requires SendsWalk(e, frames)
    ensures IsWalk(e) && Frames(e.data) == frames
  {
    var head :| |head| == 4 && e.data == WalkPayload(head, frames);
    FramesRoundTrip(head, frames);
  }

  lemma TickRead(u: Setup, e: Event, kind: nat, name: seq<nat>, amount: nat)
    requires u.allocations && SendsTick(e, kind, name, amount)
    ensures IsTick(u, e) && !IsWalk(e) && ReadTick(u.epoch, e) == Some(Tick(u.epoch(e.t), kind, name, amount))
  {
    var amount32, instance, typeId, rest :|
      e.data == TickPayload(TickFields(amount32, kind, instance, amount, typeId), name, rest);
    TickRoundTrip(u, e, amount32, kind, instance, amount, typeId, name, rest);
  }

  // --- One thread ---

  // Nothing the matcher looks at comes between the two events.
  ghost predicate Adjacent(u: Setup, es: seq<Event>, j: nat, k: nat)
    requires k <= |es|
  {
    j < k && forall i :: j < i < k ==> !Relevant(u, es[i])
  }

  lemma PreviousIs(u: Setup, es: seq<Event>, j: nat, k: nat)
    requires k <= |es| && Adjacent(u, es, j, k) && Relevant(u, es[j])
    ensures Previous(u, es, k) == j
  {
  }

  /** An allocation tick and the stack walk sent after it are told as one allocation, with the kind, name and amount of
      the tick, its time, and exactly the frames of the walk; 2 stands for them when events are replayed. */
  lemma AllocationToldAsSent(u: Setup, es: seq<Event>, j: nat, k: nat, kind: nat, name: seq<nat>, amount: nat,
                             frames: seq<nat>)
    requires u.allocations && k < |es| && Adjacent(u, es, j, k)
    requires SendsTick(es[j], kind, name, amount) && SendsWalk(es[k], frames)
    ensures NotesAt(u, es, k) == [Allocation(es[k].tid, Tick(u.epoch(es[j].t), kind, name, amount),
                                             if u.replay then [2] else frames)]
  {
    TickRead(u, es[j], kind, name, amount);
    WalkRead(es[k], frames);
    PreviousIs(u, es, j, k);
    AllocationExactly(u, es, k);
  }

  // The contention that starts with the j-th event is open before the k-th.
  ghost predicate OpenSince(u: Setup, es: seq<Event>, j: nat, k: nat)
    requires k <= |es|
  {
    j < k && u.contentions && SendsStart(es[j]) &&
    forall i :: j < i < k ==> !SendsStart(es[i]) && !SendsStop(es[i])
  }

  lemma {:induction false} OpenIs(u: Setup, es: seq<Event>, j: nat, k: nat)
    requires k <= |es| && OpenSince(u, es, j, k)
    ensures OpenStart(u, es, k) == j
    decreases k
  {
    if j < k - 1 { OpenIs(u, es, j, k - 1); }
  }

  // The walk that follows the start is the one attached until the next start.
  lemma {:induction false} AttachedIs(u: Setup, es: seq<Event>, j: nat, w: nat, k: nat)
    requires w < k <= |es| && OpenSince(u, es, j, k) && Adjacent(u, es, j, w) && IsWalk(es[w])
    ensures AttachedWalk(u, es, k) == w
    decreases k
  {
    if w == k - 1 {
      PreviousIs(u, es, j, w);
    } else {
      AttachedIs(u, es, j, w, k - 1);
      if IsWalk(es[k - 1]) { NotAfterStart(u, es, j, w, k - 1); }
    }
  }

  lemma NotAfterStart(u: Setup, es: seq<Event>, j: nat, w: nat, k: nat)
    requires j < w < k <= |es| && OpenSince(u, es, j, k) && IsWalk(es[w])
    ensures !AfterStart(u, es, k)
  {
    assert Relevant(u, es[w]);
    assert w <= Previous(u, es, k);
  }

  /** A contention that starts, is followed by a stack walk and stops is told from start to stop with exactly the frames
      of that walk, whatever else comes before the stop; 1 stands for them when events are replayed. */
  lemma ContentionToldAsSent(u: Setup, es: seq<Event>, j: nat, w: nat, k: nat, frames: seq<nat>)
    requires w < k < |es| && OpenSince(u, es, j, k) && es[j].t != 0 && Adjacent(u, es, j, w)
    requires SendsWalk(es[w], frames) && SendsStop(es[k])
    ensures NotesAt(u, es, k) == [Contention(es[k].tid, u.epoch(es[k].t), es[k].t - es[j].t,
                                             if u.replay then [1] else frames)]
  {
    WalkRead(es[w], frames);
    OpenIs(u, es, j, k);
    AttachedIs(u, es, j, w, k);
    ContentionExactly(u, es, k);
    var n :| n in NotesAt(u, es, k) && n.Contention?;
    assert NotesAt(u, es, k) == [n];
  }

  // --- Any interleaving of threads ---

  /** What is told of a thread by a run of all threads' events is what its own events tell, one by one. */
  lemma ThreadTold(u: Setup, es: seq<Event>, tid: nat)
    ensures Told(Run(u, map[], es).1, tid) == NotesFrom(u, Of(es, tid), 0)
  {
    Demultiplex(u, map[], es, tid);
    RunIsSteps(u, Of(es, tid), 0);
    assert Of(es, tid)[0..] == Of(es, tid);
  }

  lemma {:induction false} NotesFromIncludes(u: Setup, es: seq<Event>, i: nat, k: nat)
    requires i <= k < |es|
    ensures forall n :: n in NotesAt(u, es, k) ==> n in NotesFrom(u, es, i)
    decreases k - i
  {
    if i < k { NotesFromIncludes(u, es, i + 1, k); }
  }

  lemma {:induction false} ToldIncluded(notes: seq<Note>, tid: nat, n: Note)
    requires n in Told(notes, tid)
    ensures n in notes
  {
    if n in Told(notes[1..], tid) { ToldIncluded(notes[1..], tid, n); }
  }

  /** In a run of all threads' events, in any interleaving: the tick and the walk of a thread are told. */
  lemma AllocationTold(u: Setup, es: seq<Event>, tid: nat, j: nat, k: nat, kind: nat, name: seq<nat>, amount: nat,
                       frames: seq<nat>)
    requires var own := Of(es, tid);
             && u.allocations && k < |own| && Adjacent(u, own, j, k)
             && SendsTick(own[j], kind, name, amount) && SendsWalk(own[k], frames)
    ensures Allocation(tid, Tick(u.epoch(Of(es, tid)[j].t), kind, name, amount), if u.replay then [2] else frames)
            in Run(u, map[], es).1
  {
    var own := Of(es, tid);
    var n := Allocation(tid, Tick(u.epoch(own[j].t), kind, name, amount), if u.replay then [2] else frames);
    AllocationToldAsSent(u, own, j, k, kind, name, amount, frames);
    OfThread(es, tid, k);
    IsTold(u, es, tid, k, n);
  }

  lemma ContentionTold(u: Setup, es: seq<Event>, tid: nat, j: nat, w: nat, k: nat, frames: seq<nat>)
    requires var own := Of(es, tid);
             && w < k < |own| && OpenSince(u, own, j, k) && own[j].t != 0 && Adjacent(u, own, j, w)
             && SendsWalk(own[w], frames) && SendsStop(own[k])
    ensures var own := Of(es, tid);
            Contention(tid, u.epoch(own[k].t), own[k].t - own[j].t, if u.replay then [1] else frames)
            in Run(u, map[], es).1
  {
    var own := Of(es, tid);
    var n := Contention(tid, u.epoch(own[k].t), own[k].t - own[j].t, if u.replay then [1] else frames);
    ContentionToldAsSent(u, own, j, w, k, frames);
    OfThread(es, tid, k);
    IsTold(u, es, tid, k, n);
  }

  lemma IsTold(u: Setup, es: seq<Event>, tid: nat, k: nat, n: Note)
    requires k < |Of(es, tid)| && n in NotesAt(u, Of(es, tid), k)
    ensures n in Run(u, map[], es).1
  {
    NotesFromIncludes(u, Of(es, tid), 0, k);
    ThreadTold(u, es, tid);
    ToldIncluded(Run(u, map[], es).1, tid, n);
  }

  lemma {:induction false} OfThread(es: seq<Event>, tid: nat, k: nat)
    requires k < |Of(es, tid)|
    ensures Of(es, tid)[k].tid == tid
  {
    if es[0].tid != tid { OfThread(es[1..], tid, k); } else if k > 0 { OfThread(es[1..], tid, k - 1); }
  }
}
