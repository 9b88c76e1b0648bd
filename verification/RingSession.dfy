/** Reader sessions: which records a session covers, that reading it to its end misses none of them, and
    that what a writer stores is what some session hands out. */
module RingSession {
  import opened Collections
  import opened Words
  import opened RingCore
  import opened RingProtocol
  import opened RingSafety

  /** A reader opened in any reachable state covers every record reserved so far that no earlier session
      has passed, and AvailableSamples counts them. */
  lemma SessionCovers(c: Config, s: State)
    requires Reachable(c, s) && Enabled(c, s, OpenReader)
    ensures ValidCore(c, s.core) && s.core.readerPos == s.core.interPos <= s.core.writerPos && s.passed <= |s.log|
    ensures var r := Apply(c, s, OpenReader);
            && r.tail == Some(s.core.writerPos) && r.tailIndex == |s.log| && r.passed == s.passed
            && r.core == s.core && r.log == s.log && r.delivered == s.delivered && r.holders == s.holders
    ensures (s.core.writerPos - s.core.interPos) / c.stride == |s.log| - s.passed
  {
    ReachableInv(c, s);
    PosOrder(c, s.passed, |s.log|);
    CountStrides(s.passed, |s.log|, c.stride);
  }

  // --- One session ---

  lemma StepKeepsSession(c: Config, s: State, step: Step)
    requires Inv(c, s) && Enabled(c, s, step) && s.tail.Some? && step != DropReader
    ensures var r := Apply(c, s, step); r.tail == s.tail && r.tailIndex == s.tailIndex
  {
  }

  /** Until the reader is dropped its session covers the same records, whatever the writers do. */
  lemma {:induction false} SameSession(c: Config, s0: State, steps: seq<Step>, s: State)
    requires Inv(c, s0) && s0.tail.Some? && Run(c, s0, steps, s) && DropReader !in steps
    ensures s.tail == s0.tail && s.tailIndex == s0.tailIndex
    decreases |steps|
  {
    if steps != [] {
      StepInv(c, s0, steps[0]);
      assert steps[0] in steps;
      StepKeepsSession(c, s0, steps[0]);
      SameSession(c, Apply(c, s0, steps[0]), steps[1..], s);
    }
  }

  ghost predicate AllSettled(log: seq<Record>, n: nat)
    requires n <= |log|
  {
    forall k :: 0 <= k < n ==> !log[k].status.Reserved?
  }

  lemma {:induction false} CommittedConcat(a: seq<Record>, b: seq<Record>)
    ensures CommittedPayloads(a + b) == CommittedPayloads(a) + CommittedPayloads(b)
    decreases |b|
  {
    if b == [] {
      assert a + b == a;
    } else {
      var init := b[..|b| - 1];
      assert (a + b)[..|a + b| - 1] == a + init;
      CommittedConcat(a, init);
    }
  }

  lemma OpenedInv(c: Config, s: State)
    requires Reachable(c, s) && Enabled(c, s, OpenReader) && ValidCore(c, s.core)
    ensures Inv(c, s) && Inv(c, Apply(c, s, OpenReader))
  {
    ReachableInv(c, s);
    StepInv(c, s, OpenReader);
  }

  // What a run keeps of the session it starts in.
  lemma SessionRun(c: Config, s0: State, steps: seq<Step>, s: State)
    requires Inv(c, s0) && s0.tail.Some? && Run(c, s0, steps, s) && DropReader !in steps
    ensures Inv(c, s) && Extends(s0, s) && s.tail == s0.tail && s.tailIndex == s0.tailIndex
  {
    RunInv(c, s0, steps, s);
    SameSession(c, s0, steps, s);
    SettledOnce(c, s0, steps, s);
  }

  lemma DeliveredSince(c: Config, s0: State, s: State)
    requires Inv(c, s0) && Inv(c, s) && Extends(s0, s)
    ensures s.delivered == s0.delivered + CommittedPayloads(s.log[s0.passed..s.passed])
  {
    assert s0.log[..s0.passed] == s.log[..s0.passed];
    assert s.log[..s.passed] == s.log[..s0.passed] + s.log[s0.passed..s.passed];
    CommittedConcat(s.log[..s0.passed], s.log[s0.passed..s.passed]);
  }

  /** A session read until GetNext finds nothing, in any interleaving with the writers, has passed every record
      reserved before it was opened up to the first that is still reserved, and has handed out, beyond what
      earlier sessions did, the payloads of those that were committed, each once and in order. */
  lemma SessionComplete(c: Config, s0: State, steps: seq<Step>, s: State)
    requires Reachable(c, s0) && Enabled(c, s0, OpenReader) && ValidCore(c, s0.core)
    requires Run(c, Apply(c, s0, OpenReader), steps, s) && DropReader !in steps
    ensures ValidCore(c, s.core) && s.tail == Some(s0.core.writerPos)
    ensures s0.passed <= s.passed <= |s0.log| <= |s.log| && AllSettled(s.log, s.passed)
    ensures NextRecord(c, s.core, s.tail.value).1.End? ==>
              s.passed == |s0.log| || s.log[s.passed].status.Reserved?
    ensures s.delivered == s0.delivered + CommittedPayloads(s.log[s0.passed..s.passed])
  {
    var r := Apply(c, s0, OpenReader);
    OpenedInv(c, s0);
    SessionRun(c, r, steps, s);
    DeliveredSince(c, r, s);
    NextRecordMeaning(c, s);
  }

  /** When every record was settled before the reader was opened, reading to the end hands out the committed
      payloads of the whole log. */
  lemma SettledSessionComplete(c: Config, s0: State, steps: seq<Step>, s: State)
    requires Reachable(c, s0) && Enabled(c, s0, OpenReader) && ValidCore(c, s0.core) && AllSettled(s0.log, |s0.log|)
    requires Run(c, Apply(c, s0, OpenReader), steps, s) && DropReader !in steps
    ensures ValidCore(c, s.core) && s.tail.Some?
    ensures NextRecord(c, s.core, s.tail.value).1.End? <==> s.passed == |s0.log|
    ensures s.passed == |s0.log| ==> s.delivered == CommittedPayloads(s0.log)
  {
    var r := Apply(c, s0, OpenReader);
    OpenedInv(c, s0);
    SessionRun(c, r, steps, s);
    NextRecordMeaning(c, s);
    if s.passed == |s0.log| { assert s.log[..s.passed] == s0.log; }
  }

  // --- How long it takes ---

  function Reads(steps: seq<Step>): nat {
    if steps == [] then 0 else (if steps[0].ReadNext? then 1 else 0) + Reads(steps[1..])
  }

  function AtMost(n: nat, limit: nat): nat {
    if n < limit then n else limit
  }

  // A reader is open and every record of its session is settled.
  ghost predicate SettledSession(c: Config, s: State) {
    Inv(c, s) && s.tail.Some? && AllSettled(s.log, s.tailIndex)
  }

  lemma StepPasses(c: Config, s: State, step: Step)
    requires SettledSession(c, s) && Enabled(c, s, step) && step != DropReader
    ensures SettledSession(c, Apply(c, s, step)) && Apply(c, s, step).tailIndex == s.tailIndex
    ensures Apply(c, s, step).passed == if step.ReadNext? then AtMost(s.passed + 1, s.tailIndex) else s.passed
  {
    StepInv(c, s, step);
    StepKeepsSession(c, s, step);
    StepExtends(c, s, step);
    if step.ReadNext? { NextRecordMeaning(c, s); }
  }

  /** Each turn of GetNext passes one record of a settled session until none is left: as many turns as there
      are samples available always reach its end, whatever happens in between. */
  lemma {:induction false} ReadsPass(c: Config, s0: State, steps: seq<Step>, s: State)
    requires SettledSession(c, s0) && Run(c, s0, steps, s) && DropReader !in steps
    ensures s.passed == AtMost(s0.passed + Reads(steps), s0.tailIndex)
    decreases |steps|
  {
    if steps != [] {
      assert steps[0] in steps;
      StepPasses(c, s0, steps[0]);
      ReadsPass(c, Apply(c, s0, steps[0]), steps[1..], s);
    }
  }

  // --- From the writer to the reader ---

  // A step of the holder that owns the record, as opposed to one of anyone else.
  predicate IsOf(step: Step, h: nat) {
    (step.Fill? || step.MarkDiscard? || step.Destroy?) && step.h == h
  }

  ghost predicate NoneOf(steps: seq<Step>, h: nat) {
    forall k :: 0 <= k < |steps| ==> !IsOf(steps[k], h)
  }

  lemma StepOfOthers(c: Config, s: State, step: Step, h: nat)
    requires Inv(c, s) && Enabled(c, s, step) && h in s.holders && s.holders[h].Owning? && !IsOf(step, h)
    ensures OwnsRecord(c, s, h)
    ensures var r := Apply(c, s, step);
            h in r.holders && r.holders[h] == s.holders[h] && s.holders[h].index < |r.log| &&
            r.log[s.holders[h].index] == s.log[s.holders[h].index]
  {
    assert OwnsRecord(c, s, h);
    if step.Fill? || step.Destroy? {
      assert step.h in s.holders && step.h != h;
      if s.holders[step.h].Owning? { assert OwnsRecord(c, s, step.h); }
    }
  }

  // No one else touches the record of a holder, nor its holder.
  lemma {:induction false} RunOfOthers(c: Config, s0: State, steps: seq<Step>, s: State, h: nat)
    requires Inv(c, s0) && Run(c, s0, steps, s) && h in s0.holders && s0.holders[h].Owning? && NoneOf(steps, h)
    ensures s0.holders[h].index < |s0.log| && h in s.holders && s.holders[h] == s0.holders[h]
    ensures s0.holders[h].index < |s.log| && s.log[s0.holders[h].index] == s0.log[s0.holders[h].index]
    decreases |steps|
  {
    assert OwnsRecord(c, s0, h);
    if steps != [] {
      StepInv(c, s0, steps[0]);
      StepOfOthers(c, s0, steps[0], h);
      RunOfOthers(c, Apply(c, s0, steps[0]), steps[1..], s, h);
    }
  }

  lemma FillsRecord(c: Config, s: State, h: nat, bytes: seq<Byte>)
    requires Inv(c, s) && h in s.holders && s.holders[h].Owning? && |bytes| == c.sampleSize
    ensures var k, r := s.holders[h].index, Apply(c, s, Fill(h, 0, bytes));
            Inv(c, r) && r.holders == s.holders && k < |r.log| && r.log[k].payload == bytes
  {
    StepInv(c, s, Fill(h, 0, bytes));
    assert OwnsRecord(c, s, h);
  }

  lemma CommitsRecord(c: Config, s: State, h: nat)
    requires Inv(c, s) && h in s.holders && s.holders[h].Owning? && !s.holders[h].discard
    ensures var k, r := s.holders[h].index, Apply(c, s, Destroy(h));
            Inv(c, r) && k < |s.log| && k < |r.log| && r.log[k] == Record(Committed, s.log[k].payload)
  {
    StepInv(c, s, Destroy(h));
    assert OwnsRecord(c, s, h);
  }

  lemma CommittedStays(c: Config, s0: State, steps: seq<Step>, s: State, k: nat)
    requires Inv(c, s0) && Run(c, s0, steps, s) && k < |s0.log| && s0.log[k].status.Committed?
    ensures k < |s.log| && s.log[k] == s0.log[k] && (k < s.passed ==> s0.log[k].payload in s.delivered)
  {
    RunInv(c, s0, steps, s);
    SettledOnce(c, s0, steps, s);
    if k < s.passed { CommittedMember(s.log[..s.passed], k); }
  }

  /** The bytes a holder stores last, over its whole buffer, and then commits are what the record holds from then
      on, in every interleaving, and what the reader hands out when it passes the record. */
  lemma WrittenIsDelivered(c: Config, s0: State, h: nat, bytes: seq<Byte>, others: seq<Step>, s1: State,
                           steps: seq<Step>, s: State)
    requires Inv(c, s0) && h in s0.holders && s0.holders[h].Owning? && !s0.holders[h].discard
    requires |bytes| == c.sampleSize && NoneOf(others, h)
    requires Run(c, Apply(c, s0, Fill(h, 0, bytes)), others, s1)
    requires ValidCore(c, s1.core) && Enabled(c, s1, Destroy(h)) && Run(c, Apply(c, s1, Destroy(h)), steps, s)
    ensures var k := s0.holders[h].index;
            k < |s.log| && s.log[k] == Record(Committed, bytes) && (k < s.passed ==> bytes in s.delivered)
  {
    var filled := Apply(c, s0, Fill(h, 0, bytes));
    FillsRecord(c, s0, h, bytes);
    RunInv(c, filled, others, s1);
    RunOfOthers(c, filled, others, s1, h);
    CommitsRecord(c, s1, h);
    CommittedStays(c, Apply(c, s1, Destroy(h)), steps, s, s0.holders[h].index);
  }

  lemma {:induction false} CommittedMember(log: seq<Record>, k: nat)
    requires k < |log| && log[k].status.Committed?
    ensures log[k].payload in CommittedPayloads(log)
    decreases |log|
  {
    if k < |log| - 1 { CommittedMember(log[..|log| - 1], k); }
  }

  /** A discarded record is never handed out, whatever was stored in it: passing it delivers nothing. */
  lemma DiscardedNotDelivered(c: Config, s: State)
    requires Inv(c, s) && s.tail.Some? && s.passed < s.tailIndex && s.log[s.passed].status.Discarded?
    ensures var r := Apply(c, s, ReadNext); r.passed == s.passed + 1 && r.delivered == s.delivered
  {
    NextRecordMeaning(c, s);
  }

  // --- Room ---

  /** A thread that enters when there is room, and is not interrupted by other writers, comes out owning the next record
      of the log; when there is none it comes out with nothing, and nothing is changed. */
  lemma ReserveExactly(c: Config, s: State, h: nat)
    requires Inv(c, s) && s.lock.Free? && h !in s.holders
    ensures s.core.writerPos + c.stride - s.core.readerPos <= c.dataSize - 1 ==>
              exists t :: Run(c, s, [Enter(h), CheckRoom, WriteHeader, PublishRecord], t) && Reserved(c, s, t, h)
    ensures s.core.writerPos + c.stride - s.core.readerPos > c.dataSize - 1 ==>
              Run(c, s, [Enter(h), CheckRoom], s.(holders := s.holders[h := Empty]))
  {
    if s.core.writerPos + c.stride - s.core.readerPos <= c.dataSize - 1 {
      var t := ReserveRun(c, s, h);
    } else {
      ReserveFails(c, s, h);
    }
  }

  // From s the thread h has reserved one record more and left the lock.
  ghost predicate Reserved(c: Config, s: State, t: State, h: nat) {
    && Inv(c, t) && t.lock.Free? && |t.log| == |s.log| + 1 && t.log[..|s.log|] == s.log
    && t.log[|s.log|].status.Reserved? && h in t.holders && t.holders[h].Owning?
    && t.holders[h].index == |s.log| && !t.holders[h].discard && t.core.writerPos == s.core.writerPos + c.stride
  }

  lemma RunCons(c: Config, s: State, step: Step, steps: seq<Step>, t: State)
    requires ValidCore(c, s.core) && Enabled(c, s, step) && Run(c, Apply(c, s, step), steps, t)
    ensures Run(c, s, [step] + steps, t)
  {
    assert ([step] + steps)[1..] == steps;
  }

  lemma ReserveRun(c: Config, s: State, h: nat) returns (t: State)
    requires Inv(c, s) && s.lock.Free? && h !in s.holders
    requires s.core.writerPos + c.stride - s.core.readerPos <= c.dataSize - 1
    ensures Run(c, s, [Enter(h), CheckRoom, WriteHeader, PublishRecord], t) && Reserved(c, s, t, h)
  {
    var s1 := Apply(c, s, Enter(h));
    StepInv(c, s, Enter(h));
    var s2 := Apply(c, s1, CheckRoom);
    StepInv(c, s1, CheckRoom);
    var s3 := Apply(c, s2, WriteHeader);
    StepInv(c, s2, WriteHeader);
    t := Apply(c, s3, PublishRecord);
    StepInv(c, s3, PublishRecord);
    RunCons(c, s3, PublishRecord, [], t);
    RunCons(c, s2, WriteHeader, [PublishRecord], t);
    RunCons(c, s1, CheckRoom, [WriteHeader] + [PublishRecord], t);
    RunCons(c, s, Enter(h), [CheckRoom] + ([WriteHeader] + [PublishRecord]), t);
    assert [Enter(h), CheckRoom, WriteHeader, PublishRecord] ==
           [Enter(h)] + ([CheckRoom] + ([WriteHeader] + [PublishRecord]));
  }

  lemma ReserveFails(c: Config, s: State, h: nat)
    requires Inv(c, s) && s.lock.Free? && h !in s.holders
    requires s.core.writerPos + c.stride - s.core.readerPos > c.dataSize - 1
    ensures Run(c, s, [Enter(h), CheckRoom], s.(holders := s.holders[h := Empty]))
  {
    var s1 := Apply(c, s, Enter(h));
    var t := s.(holders := s.holders[h := Empty]);
    assert Apply(c, s1, CheckRoom) == t;
    RunCons(c, s1, CheckRoom, [], t);
    RunCons(c, s, Enter(h), [CheckRoom], t);
    assert [Enter(h), CheckRoom] == [Enter(h)] + [CheckRoom];
  }

  /** A reader that has passed every record gives all the room back when it is dropped: a record then fits exactly when
      it fits an empty buffer. */
  lemma RoomComesBack(c: Config, s: State)
    requires Inv(c, s) && s.tail.Some? && s.passed == |s.log|
    ensures var r := Apply(c, s, DropReader);
            r.core.readerPos == r.core.writerPos && (HasRoom(c, r.core) <==> c.stride <= c.dataSize - 1)
  {
    StepInv(c, s, DropReader);
  }
}
