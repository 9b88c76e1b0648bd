/** Garbage collection details put together from runtime events: one record for a foreground or
    non-concurrent collection, one for the background collection it may interrupt. */
module GcEvents {
  const NON_CONCURRENT := 0
  const BACKGROUND := 1
  const COMPACTION_BIT := 2

  datatype Event =
    | GCStart(t: int, count: nat, depth: nat, reason: nat, kind: nat)
    | SuspendBegin(t: int)
    | RestartEnd(t: int)
    | HeapStats(t: int, sizes: Sizes)
    | GlobalHistory(t: int, pressure: nat, mechanisms: nat)
    | Other

  datatype Sizes = Sizes(gen2: nat, loh: nat, poh: nat)

  /** The fields of GCDetails; the number is -1 when the record is not in use. */
  datatype Details = Details(number: int, generation: nat, reason: nat, kind: nat, compacting: bool, pause: int,
                             start: int, sizes: Sizes, pressure: nat, hasHistory: bool, hasStats: bool)

  /** What the listeners are told. */
  datatype Note =
    | Started(t: int, number: int, generation: nat, reason: nat, kind: nat)
    | Suspended(t: int, number: int, generation: nat, duration: int)
    | Ended(number: int, generation: nat, reason: nat, kind: nat, compacting: bool, pause: int, duration: int,
            t: int, sizes: Sizes, pressure: nat)

  const NONE := Details(-1, 0, 0, 0, false, 0, 0, Sizes(0, 0, 0), 0, false, false)

  // The 32-bit count of the payload as the signed number of the record.
  function Int32(count: nat): int {
    if count < 0x8000_0000 then count else count - 0x1_0000_0000
  }

  function Uint32(number: int): int {
    if number < 0 then number + 0x1_0000_0000 else number
  }

  function Compacts(mechanisms: nat): bool {
    mechanisms / COMPACTION_BIT % 2 == 1
  }

  datatype Slot = Foreground | Background

  datatype State = State(fg: Details, bg: Details, suspension: int)

  function At(s: State, x: Slot): Details {
    if x == Foreground then s.fg else s.bg
  }

  function With(s: State, x: Slot, d: Details): State {
    if x == Foreground then s.(fg := d) else s.(bg := d)
  }

  function Current(s: State): Slot {
    if s.fg.number != -1 then Foreground else Background
  }

  function SlotOf(e: Event): Slot
    requires e.GCStart?
  {
    if e.depth == 2 && e.kind == BACKGROUND then Background else Foreground
  }

  function Opened(e: Event): Details
    requires e.GCStart?
  {
    NONE.(number := Int32(e.count), generation := e.depth, reason := e.reason, kind := e.kind, start := e.t)
  }

  function EndNote(d: Details, t: int): Note {
    Ended(d.number, d.generation, d.reason, d.kind, d.compacting, d.pause, t - d.start, t, d.sizes, d.pressure)
  }

  predicate EndsAtRestart(d: Details) {
    d.generation < 2 || d.kind == NON_CONCURRENT
  }

  predicate IsBackground(d: Details) {
    d.generation == 2 && d.kind == BACKGROUND
  }

  /** The new state, and what the listeners are told, for one event. */
  function Step(s: State, e: Event): (State, seq<Note>) {
    var x := Current(s);
    var d := At(s, x);
    match e
    case GCStart(t, count, depth, reason, kind) =>
      (With(s, SlotOf(e), Opened(e)), [Started(t, Int32(count), depth, reason, kind)])
    case SuspendBegin(t) => (s.(suspension := t), [])
    case RestartEnd(t) =>
      if d.number == -1 then (s.(suspension := 0), [])
      else
        var duration := if s.suspension != 0 then t - s.suspension else 0;
        var told := if s.suspension != 0 then [Suspended(t, Uint32(d.number), d.generation, duration)] else [];
        var d' := d.(pause := d.pause + duration);
        var s' := s.(suspension := 0);
        if EndsAtRestart(d) then (With(s', x, NONE), told + [EndNote(d', t)]) else (With(s', x, d'), told)
    case HeapStats(t, sizes) =>
      if d.number == -1 then (With(s, x, d.(hasStats := true)), [])
      else
        var d' := d.(hasStats := true, sizes := sizes);
        if d.hasHistory && IsBackground(d) then (With(s, x, NONE), [EndNote(d', t)]) else (With(s, x, d'), [])
    case GlobalHistory(t, pressure, mechanisms) =>
      if d.number == -1 then (s, [])
      else
        var d' := d.(hasHistory := true, pressure := pressure, compacting := Compacts(mechanisms));
        if d.hasStats && IsBackground(d) then (With(s, x, NONE), [EndNote(d', t)]) else (With(s, x, d'), [])
    case Other => (s, [])
  }

  // --- The parser ---

  class Parser {
    var gcInProgress: Details
    var currentBGC: Details
    var suspensionStart: int

    ghost function View(): State
      reads this
    {
      State(gcInProgress, currentBGC, suspensionStart)
    }

    // The suspension start is not initialized: any value may be there.
    constructor (unset: int)
      ensures View() == State(NONE, NONE, unset)
    {
      gcInProgress, currentBGC, suspensionStart := NONE, NONE, unset;
    }

    method SetCurrent(d: Details)
      modifies this
      ensures View() == With(old(View()), Current(old(View())), d)
    {
      if gcInProgress.number != -1 { gcInProgress := d; } else { currentBGC := d; }
    }

    method OnGCStart(e: Event) returns (notes: seq<Note>)
      requires e.GCStart?
      modifies this
      ensures (View(), notes) == Step(old(View()), e)
    {
      notes := [Started(e.t, Int32(e.count), e.depth, e.reason, e.kind)];
      if e.depth == 2 && e.kind == BACKGROUND {
        currentBGC := Opened(e);
      } else {
        gcInProgress := Opened(e);
      }
    }

    method OnGCSuspendEEBegin(e: Event) returns (notes: seq<Note>)
      requires e.SuspendBegin?
      modifies this
      ensures (View(), notes) == Step(old(View()), e)
    {
      suspensionStart := e.t;
      notes := [];
    }

    method OnGCRestartEEEnd(e: Event) returns (notes: seq<Note>)
      requires e.RestartEnd?
      modifies this
      ensures (View(), notes) == Step(old(View()), e)
    {
      notes := [];
      var gc := if gcInProgress.number != -1 then gcInProgress else currentBGC;
      if gc.number == -1 {
        suspensionStart := 0;
        return;
      }
      var duration := 0;
      if suspensionStart != 0 {
        duration := e.t - suspensionStart;
        notes := [Suspended(e.t, Uint32(gc.number), gc.generation, duration)];
        suspensionStart := 0;
      }
      gc := gc.(pause := gc.pause + duration);
      if gc.generation < 2 || gc.kind == NON_CONCURRENT {
        notes := notes + [EndNote(gc, e.t)];
        gc := NONE;
      }
      SetCurrent(gc);
    }

    method OnGCHeapStats(e: Event) returns (notes: seq<Note>)
      requires e.HeapStats?
      modifies this
      ensures (View(), notes) == Step(old(View()), e)
    {
      notes := [];
      var gc := if gcInProgress.number != -1 then gcInProgress else currentBGC;
      gc := gc.(hasStats := true);
      if gc.number != -1 {
        gc := gc.(sizes := e.sizes);
        if gc.hasHistory && gc.generation == 2 && gc.kind == BACKGROUND {
          notes := [EndNote(gc, e.t)];
          gc := NONE;
        }
      }
      SetCurrent(gc);
    }

    method OnGCGlobalHeapHistory(e: Event) returns (notes: seq<Note>)
      requires e.GlobalHistory?
      modifies this
      ensures (View(), notes) == Step(old(View()), e)
    {
      notes := [];
      var gc := if gcInProgress.number != -1 then gcInProgress else currentBGC;
      if gc.number == -1 {
        return;
      }
      gc := gc.(hasHistory := true, pressure := e.pressure, compacting := Compacts(e.mechanisms));
      if gc.hasStats && gc.generation == 2 && gc.kind == BACKGROUND {
        notes := [EndNote(gc, e.t)];
        gc := NONE;
      }
      SetCurrent(gc);
    }

    method OnEvent(e: Event) returns (notes: seq<Note>)
      modifies this
      ensures (View(), notes) == Step(old(View()), e)
    {
      match e
      case GCStart(_, _, _, _, _) => notes := OnGCStart(e);
      case SuspendBegin(_) => notes := OnGCSuspendEEBegin(e);
      case RestartEnd(_) => notes := OnGCRestartEEEnd(e);
      case HeapStats(_, _) => notes := OnGCHeapStats(e);
      case GlobalHistory(_, _, _) => notes := OnGCGlobalHeapHistory(e);
      case Other => notes := [];
    }
  }

  // --- Runs ---

  // The state before the k-th event, and what that event makes the parser tell.
  function StateAt(unset: int, es: seq<Event>, k: nat): State
    requires k <= |es|
  {
    if k == 0 then State(NONE, NONE, unset) else Step(StateAt(unset, es, k - 1), es[k - 1]).0
  }

  function NotesAt(unset: int, es: seq<Event>, k: nat): seq<Note>
    requires k < |es|
  {
    Step(StateAt(unset, es, k), es[k]).1
  }

  // Which record the k-th event is about, unless it is a start.
  function SlotAt(unset: int, es: seq<Event>, k: nat): Slot
    requires k <= |es|
  {
    Current(StateAt(unset, es, k))
  }

  // The k-th event ends the collection of record x.
  predicate EndsAt(unset: int, es: seq<Event>, k: nat, x: Slot)
    requires k < |es|
  {
    SlotAt(unset, es, k) == x && exists n :: n in NotesAt(unset, es, k) && n.Ended?
  }

  predicate StartsAt(es: seq<Event>, k: nat, x: Slot)
    requires k < |es|
  {
    es[k].GCStart? && SlotOf(es[k]) == x
  }

  // The latest start for record x among the first n events, or -1.
  function LastStart(es: seq<Event>, n: nat, x: Slot): (j: int)
    requires n <= |es|
    ensures -1 <= j < n && (0 <= j ==> StartsAt(es, j, x))
  {
    if n == 0 then -1 else if StartsAt(es, n - 1, x) then n - 1 else LastStart(es, n - 1, x)
  }

  // The suspension time told of record x by the events lo to hi.
  function Suspension(unset: int, es: seq<Event>, lo: nat, hi: nat, x: Slot): int
    requires lo <= hi <= |es|
    decreases hi - lo
  {
    if lo == hi then 0
    else
      Suspension(unset, es, lo, hi - 1, x) +
      if SlotAt(unset, es, hi - 1) == x then Told(NotesAt(unset, es, hi - 1)) else 0
  }

  function Told(notes: seq<Note>): int {
    if notes == [] then 0 else (if notes[0].Suspended? then notes[0].duration else 0) + Told(notes[1..])
  }

  // The latest sizes, and the latest history, credited to record x by the events lo to hi.
  function LastSizes(unset: int, es: seq<Event>, lo: nat, hi: nat, x: Slot): (r: (bool, Sizes))
    requires lo <= hi <= |es|
    decreases hi - lo
  {
    if lo == hi then (false, Sizes(0, 0, 0))
    else if es[hi - 1].HeapStats? && SlotAt(unset, es, hi - 1) == x then (true, es[hi - 1].sizes)
    else LastSizes(unset, es, lo, hi - 1, x)
  }

  function LastHistory(unset: int, es: seq<Event>, lo: nat, hi: nat, x: Slot): (r: (bool, nat, bool))
    requires lo <= hi <= |es|
    decreases hi - lo
  {
    if lo == hi then (false, 0, false)
    else if es[hi - 1].GlobalHistory? && SlotAt(unset, es, hi - 1) == x then
      (true, es[hi - 1].pressure, Compacts(es[hi - 1].mechanisms))
    else LastHistory(unset, es, lo, hi - 1, x)
  }

  // No event from lo to hi starts or ends a collection of record x.
  ghost predicate Undisturbed(unset: int, es: seq<Event>, lo: nat, hi: nat, x: Slot)
    requires hi <= |es|
  {
    forall i :: lo <= i < hi ==> !StartsAt(es, i, x) && !EndsAt(unset, es, i, x)
  }

  /** What an open record holds after n events: the fields of the latest start for it, which has not
      been ended, and what has been credited to it since. */
  ghost predicate Holds(unset: int, es: seq<Event>, n: nat, x: Slot)
    requires n <= |es|
  {
    var d := At(StateAt(unset, es, n), x);
    var j := LastStart(es, n, x);
    d.number != -1 ==>
      && 0 <= j && Undisturbed(unset, es, j + 1, n, x)
      && d == FromEvents(unset, es, j, n, x)
  }

  ghost function FromEvents(unset: int, es: seq<Event>, j: nat, n: nat, x: Slot): Details
    requires j < n <= |es| && es[j].GCStart?
  {
    var sizes := LastSizes(unset, es, j + 1, n, x);
    var history := LastHistory(unset, es, j + 1, n, x);
    Details(Int32(es[j].count), es[j].depth, es[j].reason, es[j].kind, history.2, Suspension(unset, es, j + 1, n, x),
            es[j].t, sizes.1, history.1, history.0, sizes.0)
  }

  // --- What a record holds ---

  predicate HasEnd(notes: seq<Note>) {
    exists n :: n in notes && n.Ended?
  }

  // What an event that does not start record x adds to it.
  function Credited(d: Details, e: Event, notes: seq<Note>, mine: bool): Details {
    var d1 := if mine then d.(pause := d.pause + Told(notes)) else d;
    var d2 := if mine && e.HeapStats? then d1.(hasStats := true, sizes := e.sizes) else d1;
    if mine && e.GlobalHistory? then
      d2.(hasHistory := true, pressure := e.pressure, compacting := Compacts(e.mechanisms))
    else d2
  }

  lemma StepCredits(s: State, e: Event, x: Slot)
    requires !(e.GCStart? && SlotOf(e) == x) && At(Step(s, e).0, x).number != -1
    ensures At(s, x).number != -1 && (Current(s) == x ==> !HasEnd(Step(s, e).1))
    ensures At(Step(s, e).0, x) == Credited(At(s, x), e, Step(s, e).1, Current(s) == x)
  {
    var notes := Step(s, e).1;
    if |notes| == 1 { ToldOne(notes[0]); }
  }

  lemma ToldOne(n: Note)
    ensures Told([n]) == if n.Suspended? then n.duration else 0
  {
    assert [n][1..] == [];
  }

  lemma ToldTwo(n: Note, m: Note)
    ensures Told([n, m]) == Told([n]) + Told([m])
  {
    assert [n, m][1..] == [m];
    ToldOne(n);
  }

  lemma {:induction false} RecordHolds(unset: int, es: seq<Event>, n: nat, x: Slot)
    requires n <= |es|
    ensures Holds(unset, es, n, x)
  {
    if n > 0 {
      RecordHolds(unset, es, n - 1, x);
      if StartsAt(es, n - 1, x) {
      } else if At(StateAt(unset, es, n), x).number != -1 {
        StepCredits(StateAt(unset, es, n - 1), es[n - 1], x);
        CreditsHold(unset, es, n, x);
      }
    }
  }

  lemma CreditsHold(unset: int, es: seq<Event>, n: nat, x: Slot)
    requires 0 < n <= |es| && Holds(unset, es, n - 1, x) && !StartsAt(es, n - 1, x)
    requires var s := StateAt(unset, es, n - 1);
             && At(s, x).number != -1 && (Current(s) == x ==> !HasEnd(Step(s, es[n - 1]).1))
             && At(StateAt(unset, es, n), x) == Credited(At(s, x), es[n - 1], Step(s, es[n - 1]).1, Current(s) == x)
    ensures Holds(unset, es, n, x)
  {
    var j := LastStart(es, n - 1, x);
    assert LastStart(es, n, x) == j;
    assert !EndsAt(unset, es, n - 1, x);
    assert FromEvents(unset, es, j, n, x) ==
           Credited(FromEvents(unset, es, j, n - 1, x), es[n - 1], NotesAt(unset, es, n - 1),
                    SlotAt(unset, es, n - 1) == x);
  }

  // --- End notifications ---

  // When exactly an event makes the parser tell an end.
  lemma EndsExactly(s: State, e: Event)
    ensures HasEnd(Step(s, e).1) <==>
              var d := At(s, Current(s));
              d.number != -1 &&
                match e
                case RestartEnd(_) => EndsAtRestart(d)
                case HeapStats(_, _) => d.hasHistory && IsBackground(d)
                case GlobalHistory(_, _, _) => d.hasStats && IsBackground(d)
                case _ => false
    ensures forall n :: n in Step(s, e).1 && n.Ended? ==>
              n == EndNote(Credited(At(s, Current(s)), e, Step(s, e).1, true), e.t)
    ensures HasEnd(Step(s, e).1) ==> At(Step(s, e).0, Current(s)) == NONE
  {
    var notes := Step(s, e).1;
    if |notes| == 2 {
      assert notes[1] in notes && notes == [notes[0], notes[1]];
      ToldTwo(notes[0], notes[1]);
      ToldOne(notes[0]);
      ToldOne(notes[1]);
    }
    if |notes| == 1 {
      assert notes[0] in notes && notes == [notes[0]];
      ToldOne(notes[0]);
    }
  }

  /** Every end notification tells of the latest start for its record, which no earlier event ended: its
      number, generation, reason and kind, the time since it, the suspensions told of it since then and
      no others, and the sizes and history last credited to it. */
  lemma EndTellsOfStart(unset: int, es: seq<Event>, k: nat, x: Slot, n: Note) returns (j: nat)
    requires k < |es| && SlotAt(unset, es, k) == x && n in NotesAt(unset, es, k) && n.Ended?
    ensures j < k && StartsAt(es, j, x) && j == LastStart(es, k, x) && Undisturbed(unset, es, j + 1, k, x)
    ensures n.number == Int32(es[j].count) && n.generation == es[j].depth && n.reason == es[j].reason &&
            n.kind == es[j].kind
    ensures n.t == es[k].t && n.duration == es[k].t - es[j].t
    ensures n.pause == Suspension(unset, es, j + 1, k + 1, x)
    ensures n.sizes == LastSizes(unset, es, j + 1, k + 1, x).1
    ensures (n.pressure, n.compacting) ==
            (LastHistory(unset, es, j + 1, k + 1, x).1, LastHistory(unset, es, j + 1, k + 1, x).2)
  {
    var s := StateAt(unset, es, k);
    EndsExactly(s, es[k]);
    assert HasEnd(NotesAt(unset, es, k));
    RecordHolds(unset, es, k, x);
    j := LastStart(es, k, x);
    assert FromEvents(unset, es, j, k + 1, x) ==
           Credited(FromEvents(unset, es, j, k, x), es[k], NotesAt(unset, es, k), true);
  }

  /** No start is ended twice: between two ends of one record comes a new start for it. */
  lemma StartEndedOnce(unset: int, es: seq<Event>, k: nat, k': nat, x: Slot, n: Note, n': Note)
    returns (j: nat, j': nat)
    requires k < k' < |es| && SlotAt(unset, es, k) == x == SlotAt(unset, es, k')
    requires n in NotesAt(unset, es, k) && n.Ended? && n' in NotesAt(unset, es, k') && n'.Ended?
    ensures j == LastStart(es, k, x) < k < j' == LastStart(es, k', x)
  {
    j := EndTellsOfStart(unset, es, k, x, n);
    j' := EndTellsOfStart(unset, es, k', x, n');
    assert EndsAt(unset, es, k, x);
    assert j' != k by { EndsExactly(StateAt(unset, es, k), es[k]); }
  }

  // --- Suspensions ---

  // The latest suspension or restart among the first k events, or -1.
  function LastMark(es: seq<Event>, k: nat): (j: int)
    requires k <= |es|
    ensures -1 <= j < k && (0 <= j ==> es[j].SuspendBegin? || es[j].RestartEnd?)
    ensures forall i :: 0 <= i < k && j < i ==> !es[i].SuspendBegin? && !es[i].RestartEnd?
  {
    if k == 0 then -1 else if es[k - 1].SuspendBegin? || es[k - 1].RestartEnd? then k - 1 else LastMark(es, k - 1)
  }

  // When the suspension that is open before the k-th event began; 0 when none is.
  function SuspendedSince(unset: int, es: seq<Event>, k: nat): int
    requires k <= |es|
  {
    var j := LastMark(es, k);
    if j < 0 then unset else if es[j].SuspendBegin? then es[j].t else 0
  }

  lemma {:induction false} SuspensionStands(unset: int, es: seq<Event>, k: nat)
    requires k <= |es|
    ensures StateAt(unset, es, k).suspension == SuspendedSince(unset, es, k)
  {
    if k > 0 { SuspensionStands(unset, es, k - 1); }
  }

  /** A suspension is told exactly at a restart, of the collection that is current then, with the time since
      the latest begin that no other restart has taken. */
  lemma SuspensionExactly(unset: int, es: seq<Event>, k: nat)
    requires k < |es|
    ensures var d, since := At(StateAt(unset, es, k), SlotAt(unset, es, k)), SuspendedSince(unset, es, k);
            && ((exists n :: n in NotesAt(unset, es, k) && n.Suspended?) <==>
                es[k].RestartEnd? && d.number != -1 && since != 0)
            && forall n :: n in NotesAt(unset, es, k) && n.Suspended? ==>
                 n == Suspended(es[k].t, Uint32(d.number), d.generation, es[k].t - since)
  {
    SuspensionStands(unset, es, k);
    var notes := NotesAt(unset, es, k);
    if notes != [] { assert notes[0] in notes; }
  }

  // --- The background collection ---

  /** While a foreground collection is open, only a background start changes the background record. */
  lemma BackgroundUntouched(s: State, e: Event)
    requires s.fg.number != -1 && !(e.GCStart? && SlotOf(e) == Background)
    ensures Step(s, e).0.bg == s.bg
  {
  }

  lemma {:induction false} BackgroundKept(unset: int, es: seq<Event>, lo: nat, hi: nat)
    requires lo <= hi <= |es|
    requires forall k :: lo <= k < hi ==> StateAt(unset, es, k).fg.number != -1 && !StartsAt(es, k, Background)
    ensures StateAt(unset, es, hi).bg == StateAt(unset, es, lo).bg
    decreases hi - lo
  {
    if lo < hi {
      BackgroundKept(unset, es, lo, hi - 1);
      assert !StartsAt(es, hi - 1, Background);
      BackgroundUntouched(StateAt(unset, es, hi - 1), es[hi - 1]);
    }
  }

  lemma {:induction false} SizesCredited(unset: int, es: seq<Event>, lo: nat, hi: nat, x: Slot) returns (i: nat)
    requires lo <= hi <= |es| && LastSizes(unset, es, lo, hi, x).0
    ensures lo <= i < hi && es[i].HeapStats? && SlotAt(unset, es, i) == x
    decreases hi - lo
  {
    i := hi - 1;
    if !(es[i].HeapStats? && SlotAt(unset, es, i) == x) { i := SizesCredited(unset, es, lo, hi - 1, x); }
  }

  lemma {:induction false} HistoryCredited(unset: int, es: seq<Event>, lo: nat, hi: nat, x: Slot) returns (i: nat)
    requires lo <= hi <= |es| && LastHistory(unset, es, lo, hi, x).0
    ensures lo <= i < hi && es[i].GlobalHistory? && SlotAt(unset, es, i) == x
    decreases hi - lo
  {
    i := hi - 1;
    if !(es[i].GlobalHistory? && SlotAt(unset, es, i) == x) { i := HistoryCredited(unset, es, lo, hi - 1, x); }
  }

  lemma OpenIsOfSlot(unset: int, es: seq<Event>, k: nat, x: Slot)
    requires k <= |es| && At(StateAt(unset, es, k), x).number != -1
    ensures IsBackground(At(StateAt(unset, es, k), x)) <==> x == Background
  {
    RecordHolds(unset, es, k, x);
  }

  /** A background collection ends only when, since its start, both the heap statistics and the heap
      history have been credited to it. */
  lemma BackgroundEndsWithBoth(unset: int, es: seq<Event>, k: nat) returns (stats: nat, history: nat)
    requires k < |es| && EndsAt(unset, es, k, Background)
    ensures 0 <= LastStart(es, k, Background) < stats <= k && es[stats].HeapStats? &&
            SlotAt(unset, es, stats) == Background
    ensures LastStart(es, k, Background) < history <= k && es[history].GlobalHistory? &&
            SlotAt(unset, es, history) == Background
  {
    var s, j := StateAt(unset, es, k), LastStart(es, k, Background);
    EndsExactly(s, es[k]);
    assert HasEnd(NotesAt(unset, es, k));
    RecordHolds(unset, es, k, Background);
    OpenIsOfSlot(unset, es, k, Background);
    stats := SizesCredited(unset, es, j + 1, k + 1, Background);
    history := HistoryCredited(unset, es, j + 1, k + 1, Background);
  }

  /** A foreground collection ends only at a restart, when it is of a young generation or not concurrent. */
  lemma ForegroundEndsAtRestart(unset: int, es: seq<Event>, k: nat)
    requires k < |es| && SlotAt(unset, es, k) == Foreground
    ensures EndsAt(unset, es, k, Foreground) <==> es[k].RestartEnd? && EndsAtRestart(StateAt(unset, es, k).fg)
  {
    EndsExactly(StateAt(unset, es, k), es[k]);
    OpenIsOfSlot(unset, es, k, Foreground);
  }

  ghost predicate NoRestart(es: seq<Event>, lo: nat, hi: nat)
    requires hi <= |es|
  {
    forall i :: lo <= i < hi ==> !es[i].RestartEnd?
  }

  // What the start asks for: a collection that a restart ends, under a number the parser can tell from none.
  predicate CanEnd(e: Event)
    requires e.GCStart?
  {
    Int32(e.count) != -1 && EndsAtRestart(Opened(e))
  }

  // The foreground record after n events, in terms of the latest start for it.
  lemma {:induction false} ForegroundSince(unset: int, es: seq<Event>, j: nat, n: nat)
    requires j < n <= |es| && LastStart(es, n, Foreground) == j
    ensures var fg := StateAt(unset, es, n).fg;
            && fg.number == (if CanEnd(es[j]) && !NoRestart(es, j + 1, n) then -1 else Int32(es[j].count))
            && (fg.number != -1 ==> fg.generation == es[j].depth && fg.kind == es[j].kind)
    decreases n
  {
    if j < n - 1 {
      ForegroundSince(unset, es, j, n - 1);
      ForegroundStep(StateAt(unset, es, n - 1), es[n - 1]);
      assert NoRestart(es, j + 1, n) <==> NoRestart(es, j + 1, n - 1) && !es[n - 1].RestartEnd?;
    }
  }

  lemma ForegroundStep(s: State, e: Event)
    requires !(e.GCStart? && SlotOf(e) == Foreground) && (s.fg.number != -1 ==> !IsBackground(s.fg))
    ensures var fg := Step(s, e).0.fg;
            && fg.number == (if e.RestartEnd? && EndsAtRestart(s.fg) then -1 else s.fg.number)
            && (fg.number != -1 ==> fg.generation == s.fg.generation && fg.kind == s.fg.kind)
  {
  }

  /** A foreground or non-concurrent start is ended by the first restart after it, if no other such start
      comes before, and by nothing else: never, when it is of generation two or more and not
      non-concurrent, or has the number that stands for no collection. */
  lemma ForegroundEndedExactly(unset: int, es: seq<Event>, j: nat, k: nat)
    requires j < k < |es| && LastStart(es, k, Foreground) == j
    ensures EndsAt(unset, es, k, Foreground) <==> CanEnd(es[j]) && es[k].RestartEnd? && NoRestart(es, j + 1, k)
  {
    ForegroundSince(unset, es, j, k);
    if SlotAt(unset, es, k) == Foreground { ForegroundEndsAtRestart(unset, es, k); }
  }

  /** While a start that no restart can end is the latest of its kind, no end at all is told, not even of a
      background collection. */
  lemma StuckForeground(unset: int, es: seq<Event>, j: nat, k: nat)
    requires j < k < |es| && LastStart(es, k, Foreground) == j
    requires es[j].depth >= 2 && es[j].kind != NON_CONCURRENT && Int32(es[j].count) != -1
    ensures forall n :: n in NotesAt(unset, es, k) ==> !n.Ended?
  {
    ForegroundSince(unset, es, j, k);
    ForegroundEndedExactly(unset, es, j, k);
    assert !EndsAt(unset, es, k, Foreground);
  }

  const FOREGROUND := 2

  // A run with such a start: everything a collection sends arrives, and no end is told.
  const STUCK_RUN := [GCStart(1, 7, 2, 0, FOREGROUND), SuspendBegin(2), HeapStats(3, Sizes(0, 0, 0)),
                      GlobalHistory(4, 0, 0), RestartEnd(5)]

  lemma FullForegroundNeverEnds(unset: int, k: nat, x: Slot)
    requires k < |STUCK_RUN|
    ensures !EndsAt(unset, STUCK_RUN, k, x)
  {
    if 0 < k {
      StartIsLast(k);
      StuckForeground(unset, STUCK_RUN, 0, k);
    }
  }

  lemma {:induction false} StartIsLast(k: nat)
    requires 0 < k < |STUCK_RUN|
    ensures LastStart(STUCK_RUN, k, Foreground) == 0
  {
    if k > 1 { StartIsLast(k - 1); }
  }

  // --- The two orders of arrival ---

  function RunFrom(s: State, es: seq<Event>): (State, seq<Note>)
    decreases |es|
  {
    if es == [] then (s, [])
    else var (s1, n1) := Step(s, es[0]); var (s2, n2) := RunFrom(s1, es[1..]); (s2, n1 + n2)
  }

  // The two states differ in nothing but what each of the two events has told the background record.
  ghost predicate Alike(a: State, b: State) {
    && a.fg == b.fg && a.suspension == b.suspension && a.bg.number != -1 && IsBackground(a.bg)
    && a.bg.hasStats && !a.bg.hasHistory && b.bg.hasHistory && !b.bg.hasStats
    && b.bg == a.bg.(hasStats := false, hasHistory := true, sizes := b.bg.sizes, pressure := b.bg.pressure,
                     compacting := b.bg.compacting)
  }

  // Events that tell the background record neither, nor start it anew.
  ghost predicate Between(s: State, es: seq<Event>)
    decreases |es|
  {
    es != [] ==>
      && !(es[0].GCStart? && SlotOf(es[0]) == Background)
      && (es[0].HeapStats? || es[0].GlobalHistory? ==> s.fg.number != -1)
      && Between(Step(s, es[0]).0, es[1..])
  }

  lemma StepAlike(a: State, b: State, e: Event)
    requires Alike(a, b) && !(e.GCStart? && SlotOf(e) == Background) &&
             (e.HeapStats? || e.GlobalHistory? ==> a.fg.number != -1)
    ensures Alike(Step(a, e).0, Step(b, e).0) && Step(a, e).1 == Step(b, e).1
    ensures Step(a, e).0.bg.(pause := 0) == a.bg.(pause := 0) && Step(b, e).0.bg.(pause := 0) == b.bg.(pause := 0)
  {
  }

  lemma {:induction false} RunAlike(a: State, b: State, es: seq<Event>)
    requires Alike(a, b) && Between(a, es)
    ensures Alike(RunFrom(a, es).0, RunFrom(b, es).0) && RunFrom(a, es).1 == RunFrom(b, es).1
    ensures RunFrom(a, es).0.bg.(pause := 0) == a.bg.(pause := 0) &&
            RunFrom(b, es).0.bg.(pause := 0) == b.bg.(pause := 0)
    decreases |es|
  {
    if es != [] {
      StepAlike(a, b, es[0]);
      RunAlike(Step(a, es[0]).0, Step(b, es[0]).0, es[1..]);
    }
  }

  /** The heap statistics and the heap history may arrive in either order, with other events between them:
      the end is told with the same details, apart from its time and duration, and leaves the same state. */
  lemma OrdersAgree(s: State, stats: Event, history: Event, stats': Event, history': Event, mid: seq<Event>)
    requires s.fg.number == -1 && s.bg.number != -1 && IsBackground(s.bg) && !s.bg.hasStats && !s.bg.hasHistory
    requires stats.HeapStats? && stats'.HeapStats? && stats'.sizes == stats.sizes
    requires history.GlobalHistory? && history'.GlobalHistory?
    requires history'.pressure == history.pressure && history'.mechanisms == history.mechanisms
    requires Between(Step(s, stats).0, mid)
    ensures var a := RunFrom(Step(s, stats).0, mid);
            var b := RunFrom(Step(s, history').0, mid);
            a.1 == b.1 &&
            (a.0.fg.number == -1 ==>
               var (s1, n1) := Step(a.0, history);
               var (s2, n2) := Step(b.0, stats');
               s1 == s2 && |n1| == |n2| == 1 && n1[0].Ended? && n2[0].Ended? &&
               n1[0].(t := 0, duration := 0) == n2[0].(t := 0, duration := 0))
  {
    var a0, b0 := Step(s, stats).0, Step(s, history').0;
    assert Alike(a0, b0);
    RunAlike(a0, b0, mid);
  }
}
