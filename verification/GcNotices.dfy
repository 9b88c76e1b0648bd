/** What the listeners of the collections are told, counted note by note over every run of events. */
module GcNotices {
  import opened Words
  import opened GcEvents

  function Ends(notes: seq<Note>): nat {
    if notes == [] then 0 else (if notes[0].Ended? then 1 else 0) + Ends(notes[1..])
  }

  function Suspensions(notes: seq<Note>): nat {
    if notes == [] then 0 else (if notes[0].Suspended? then 1 else 0) + Suspensions(notes[1..])
  }

  lemma {:induction false} CountsOne(n: Note)
    ensures Ends([n]) == (if n.Ended? then 1 else 0) && Suspensions([n]) == (if n.Suspended? then 1 else 0)
  {
    assert [n][1..] == [];
  }

  lemma {:induction false} CountsTwo(n: Note, m: Note)
    ensures Ends([n, m]) == Ends([n]) + Ends([m]) && Suspensions([n, m]) == Suspensions([n]) + Suspensions([m])
  {
    assert [n, m][1..] == [m];
    CountsOne(n);
  }

  /** A start is told of by itself, with the fields of its payload. Any other event tells at most one suspension
      and at most one end, the suspension first. */
  lemma {:induction false} EventTells(s: State, e: Event)
    ensures var notes := Step(s, e).1;
            && Ends(notes) <= 1 && Suspensions(notes) <= 1 && |notes| <= 2
            && (|notes| == 2 ==> notes[0].Suspended? && notes[1].Ended?)
            && (HasEnd(notes) <==> Ends(notes) == 1)
            && (e.GCStart? ==>
                  |notes| == 1 && notes[0].Started? && notes[0].t == e.t && notes[0].generation == e.depth &&
                  notes[0].reason == e.reason && notes[0].kind == e.kind &&
                  notes[0].number == (if e.count < 0x8000_0000 then e.count else e.count - 0x1_0000_0000))
            && (!e.GCStart? ==> forall n :: n in notes ==> !n.Started?)
  {
    var notes := Step(s, e).1;
    if |notes| == 1 {
      assert notes == [notes[0]] && notes[0] in notes;
      CountsOne(notes[0]);
    } else if |notes| == 2 {
      assert notes == [notes[0], notes[1]] && notes[1] in notes;
      CountsTwo(notes[0], notes[1]);
      CountsOne(notes[0]);
      CountsOne(notes[1]);
    }
  }

  // --- Ends, counted over a run ---

  // How many ends of record x the events lo to hi tell, over all their notes.
  function EndsTold(unset: int, es: seq<Event>, lo: nat, hi: nat, x: Slot): nat
    requires lo <= hi <= |es|
    decreases hi - lo
  {
    if lo == hi then 0
    else EndsTold(unset, es, lo, hi - 1, x) +
         if SlotAt(unset, es, hi - 1) == x then Ends(NotesAt(unset, es, hi - 1)) else 0
  }

  function StartsTold(es: seq<Event>, n: nat, x: Slot): nat
    requires n <= |es|
  {
    if n == 0 then 0 else StartsTold(es, n - 1, x) + if StartsAt(es, n - 1, x) then 1 else 0
  }

  // An end closes its record, and nothing else does.
  lemma StepEnds(s: State, e: Event, x: Slot)
    requires !(e.GCStart? && SlotOf(e) == x)
    ensures var n := if Current(s) == x then Ends(Step(s, e).1) else 0;
            && n <= 1 && (At(s, x).number == -1 ==> n == 0)
            && At(Step(s, e).0, x).number == (if n == 1 then -1 else At(s, x).number)
  {
    EventTells(s, e);
    EndsExactly(s, e);
  }

  lemma StartTellsNoEnd(s: State, e: Event)
    requires e.GCStart?
    ensures Ends(Step(s, e).1) == 0 && At(Step(s, e).0, SlotOf(e)).number == Int32(e.count)
  {
    CountsOne(Step(s, e).1[0]);
  }

  /** Counting every note of every event: from a start to the next start of its record, one end is told if the record is
      closed by then, and none if it is still open or was never opened. */
  lemma {:induction false} EndsSinceStart(unset: int, es: seq<Event>, j: nat, n: nat, x: Slot)
    requires j < n <= |es| && LastStart(es, n, x) == j
    ensures EndsTold(unset, es, j + 1, n, x) ==
            if Int32(es[j].count) != -1 && At(StateAt(unset, es, n), x).number == -1 then 1 else 0
    ensures Int32(es[j].count) == -1 ==> At(StateAt(unset, es, n), x).number == -1
    decreases n
  {
    if j < n - 1 {
      EndsSinceStart(unset, es, j, n - 1, x);
      StepEnds(StateAt(unset, es, n - 1), es[n - 1], x);
    } else {
      StartTellsNoEnd(StateAt(unset, es, j), es[j]);
    }
  }

  /** No start is ended twice, not even by one event. */
  lemma EndedAtMostOnce(unset: int, es: seq<Event>, j: nat, n: nat, x: Slot)
    requires j < n <= |es| && StartsAt(es, j, x) && forall i :: j < i < n ==> !StartsAt(es, i, x)
    ensures EndsTold(unset, es, j + 1, n, x) <= 1
  {
    LatestStart(es, j, n, x);
    EndsSinceStart(unset, es, j, n, x);
  }

  lemma {:induction false} LatestStart(es: seq<Event>, j: nat, n: nat, x: Slot)
    requires j < n <= |es| && StartsAt(es, j, x) && forall i :: j < i < n ==> !StartsAt(es, i, x)
    ensures LastStart(es, n, x) == j
    decreases n
  {
    if j < n - 1 { LatestStart(es, j, n - 1, x); }
  }

  /** Over a whole run a record is ended at most as often as it was started, not counting the start still open. */
  lemma {:induction false} EndsMatchStarts(unset: int, es: seq<Event>, n: nat, x: Slot)
    requires n <= |es|
    ensures EndsTold(unset, es, 0, n, x) + (if At(StateAt(unset, es, n), x).number != -1 then 1 else 0) <=
            StartsTold(es, n, x)
  {
    if n > 0 {
      EndsMatchStarts(unset, es, n - 1, x);
      var s := StateAt(unset, es, n - 1);
      if StartsAt(es, n - 1, x) {
        StartTellsNoEnd(s, es[n - 1]);
      } else {
        StepEnds(s, es[n - 1], x);
      }
    }
  }

  // --- Which starts are ended, in terms of their payload ---

  // No event from lo to hi starts a collection other than a background one, or restarts the runtime.
  ghost predicate QuietForeground(es: seq<Event>, lo: nat, hi: nat)
    requires hi <= |es|
  {
    forall i :: lo <= i < hi ==> !es[i].RestartEnd? && (es[i].GCStart? ==> es[i].depth == 2 && es[i].kind == 1)
  }

  /** A start of generation 0 or 1, or one of the non-concurrent kind, is ended by the next restart, unless another such
      collection is started before: by exactly one note, the last of that event, with its own number, generation,
      reason, kind and age. */
  lemma YoungEndedAtRestart(unset: int, es: seq<Event>, j: nat, k: nat)
    requires j < k < |es| && es[j].GCStart? && es[k].RestartEnd? && QuietForeground(es, j + 1, k)
    requires es[j].depth < 2 || es[j].kind == 0
    requires es[j].count < 0x1_0000_0000 && es[j].count != 0xFFFF_FFFF
    ensures var notes := NotesAt(unset, es, k);
            && Ends(notes) == 1 && notes[|notes| - 1].Ended?
            && var n := notes[|notes| - 1];
               && n.number % 0x1_0000_0000 == es[j].count && n.generation == es[j].depth && n.reason == es[j].reason
               && n.kind == es[j].kind && n.t == es[k].t && n.duration == es[k].t - es[j].t
  {
    YoungEnds(unset, es, j, k);
    EventTells(StateAt(unset, es, k), es[k]);
    var n :| n in NotesAt(unset, es, k) && n.Ended?;
    EndIsLast(NotesAt(unset, es, k), n);
    var start := EndTellsOfStart(unset, es, k, Foreground, n);
  }

  lemma YoungEnds(unset: int, es: seq<Event>, j: nat, k: nat)
    requires j < k < |es| && es[j].GCStart? && es[k].RestartEnd? && QuietForeground(es, j + 1, k)
    requires es[j].depth < 2 || es[j].kind == 0
    requires es[j].count < 0x1_0000_0000 && es[j].count != 0xFFFF_FFFF
    ensures LastStart(es, k, Foreground) == j && EndsAt(unset, es, k, Foreground)
  {
    assert StartsAt(es, j, Foreground);
    LatestStart(es, j, k, Foreground);
    ForegroundEndedExactly(unset, es, j, k);
    assert NoRestart(es, j + 1, k);
  }

  lemma EndIsLast(notes: seq<Note>, n: Note)
    requires n in notes && n.Ended? && |notes| <= 2 && (|notes| == 2 ==> notes[0].Suspended? && notes[1].Ended?)
    ensures n == notes[|notes| - 1]
  {
  }

  // The record's collection was credited the statistics, or the history, by some event from lo to hi.
  ghost predicate GotStats(unset: int, es: seq<Event>, lo: nat, hi: nat)
    requires hi <= |es|
  {
    exists i :: lo <= i < hi && es[i].HeapStats? && SlotAt(unset, es, i) == Background
  }

  ghost predicate GotHistory(unset: int, es: seq<Event>, lo: nat, hi: nat)
    requires hi <= |es|
  {
    exists i :: lo <= i < hi && es[i].GlobalHistory? && SlotAt(unset, es, i) == Background
  }

  ghost predicate GotBoth(unset: int, es: seq<Event>, lo: nat, hi: nat)
    requires hi <= |es|
  {
    GotStats(unset, es, lo, hi) && GotHistory(unset, es, lo, hi)
  }

  lemma {:induction false} CreditsFound(unset: int, es: seq<Event>, lo: nat, hi: nat)
    requires lo <= hi <= |es|
    ensures LastSizes(unset, es, lo, hi, Background).0 <==> GotStats(unset, es, lo, hi)
    ensures LastHistory(unset, es, lo, hi, Background).0 <==> GotHistory(unset, es, lo, hi)
    decreases hi - lo
  {
    if lo < hi { CreditsFound(unset, es, lo, hi - 1); }
  }

  lemma GotOneMore(unset: int, es: seq<Event>, lo: nat, hi: nat)
    requires lo <= hi < |es|
    ensures GotBoth(unset, es, lo, hi) ==> GotBoth(unset, es, lo, hi + 1)
    ensures GotBoth(unset, es, lo, hi + 1) && !GotBoth(unset, es, lo, hi) <==>
              SlotAt(unset, es, hi) == Background && !GotBoth(unset, es, lo, hi) &&
              ((es[hi].HeapStats? && GotHistory(unset, es, lo, hi)) ||
               (es[hi].GlobalHistory? && GotStats(unset, es, lo, hi)))
  {
  }

  // What one event does to the background record that is open.
  lemma BackgroundStep(s: State, e: Event)
    requires s.bg.number != -1 && IsBackground(s.bg) && !(e.GCStart? && SlotOf(e) == Background)
    ensures Step(s, e).0.bg.number == -1 <==>
              Current(s) == Background && ((e.HeapStats? && s.bg.hasHistory) || (e.GlobalHistory? && s.bg.hasStats))
    ensures Step(s, e).0.bg.number == -1 <==> Current(s) == Background && HasEnd(Step(s, e).1)
  {
    EndsExactly(s, e);
  }

  /** The record of a background start is open exactly until both have been credited to it. */
  lemma {:induction false} BackgroundSince(unset: int, es: seq<Event>, j: nat, n: nat)
    requires j < n <= |es| && LastStart(es, n, Background) == j && Int32(es[j].count) != -1
    ensures StateAt(unset, es, n).bg.number != -1 <==> !GotBoth(unset, es, j + 1, n)
    decreases n
  {
    if j < n - 1 {
      BackgroundSince(unset, es, j, n - 1);
      GotOneMore(unset, es, j + 1, n - 1);
      var s := StateAt(unset, es, n - 1);
      if s.bg.number != -1 {
        OpenBackground(unset, es, j, n - 1);
        BackgroundStep(s, es[n - 1]);
      } else {
        StepEnds(s, es[n - 1], Background);
      }
    }
  }

  lemma OpenBackground(unset: int, es: seq<Event>, j: nat, n: nat)
    requires j < n <= |es| && LastStart(es, n, Background) == j && StateAt(unset, es, n).bg.number != -1
    ensures var bg := StateAt(unset, es, n).bg;
            && IsBackground(bg) && (bg.hasStats <==> GotStats(unset, es, j + 1, n))
            && (bg.hasHistory <==> GotHistory(unset, es, j + 1, n))
  {
    RecordHolds(unset, es, n, Background);
    OpenIsOfSlot(unset, es, n, Background);
    CreditsFound(unset, es, j + 1, n);
  }

  /** A background start is ended by the event with which, for the first time since it, both the statistics and the
      history have been credited to it, and by no other. */
  lemma BackgroundEndedExactly(unset: int, es: seq<Event>, j: nat, k: nat)
    requires j < k < |es| && LastStart(es, k, Background) == j
    ensures EndsAt(unset, es, k, Background) <==>
              Int32(es[j].count) != -1 && GotBoth(unset, es, j + 1, k + 1) && !GotBoth(unset, es, j + 1, k)
  {
    var s := StateAt(unset, es, k);
    GotOneMore(unset, es, j + 1, k);
    EndsSinceStart(unset, es, j, k, Background);
    if s.bg.number != -1 {
      OpenBackground(unset, es, j, k);
      BackgroundStarts(unset, es, j, k);
      EndsExactly(s, es[k]);
    } else {
      EndsExactly(s, es[k]);
      if Int32(es[j].count) != -1 { BackgroundSince(unset, es, j, k); }
    }
  }

  lemma BackgroundStarts(unset: int, es: seq<Event>, j: nat, k: nat)
    requires j < k <= |es| && LastStart(es, k, Background) == j && StateAt(unset, es, k).bg.number != -1
    ensures Int32(es[j].count) != -1 && !GotBoth(unset, es, j + 1, k)
  {
    EndsSinceStart(unset, es, j, k, Background);
    BackgroundSince(unset, es, j, k);
  }

  // --- Fields ---

  /** The suspension told of a collection carries the count of the payload that started it. */
  lemma SuspensionTellsCount(unset: int, es: seq<Event>, k: nat, n: Note) returns (j: nat)
    requires k < |es| && n in NotesAt(unset, es, k) && n.Suspended?
    ensures j == LastStart(es, k, SlotAt(unset, es, k)) && n.generation == es[j].depth
    ensures es[j].count < 0x1_0000_0000 ==> n.number == es[j].count
  {
    SuspensionExactly(unset, es, k);
    RecordHolds(unset, es, k, SlotAt(unset, es, k));
    j := LastStart(es, k, SlotAt(unset, es, k));
  }

  /** A collection is told to compact when the second bit of the mechanisms is set. */
  lemma CompactsIsBit(mechanisms: nat)
    ensures Compacts(mechanisms) <==> And(mechanisms, 0x2) == 0x2
  {
    var f := (p: bool, q: bool) => p && q;
    NoBits(f, mechanisms / 2 / 2);
    assert Bitwise(f, mechanisms / 2, 1) == (if mechanisms / 2 % 2 == 1 then 1 else 0);
  }

  lemma {:induction false} NoBits(f: (bool, bool) -> bool, a: nat)
    requires forall p :: !f(p, false)
    ensures Bitwise(f, a, 0) == 0
  {
    if a > 0 { NoBits(f, a / 2); }
  }
}
