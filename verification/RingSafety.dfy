/** Every run of the ring buffer protocol keeps the invariant, and what that means for its users. */
module RingSafety {
  import opened Words
  import opened RingArithmetic
  import opened RingMemory
  import opened RingCore
  import opened RingProtocol

  lemma InitInv(c: Config, mem: Memory)
    requires ValidConfig(c) && |mem| == c.dataSize
    ensures Inv(c, Init(mem))
  {
  }

  // --- Steps that do not touch the data area ---

  lemma QuietStep(c: Config, s: State, step: Step)
    requires Inv(c, s) && Enabled(c, s, step)
    requires step.TimeOut? || step.Enter? || step.CheckRoom? || step.MarkDiscard?
    ensures Inv(c, Apply(c, s, step))
  {
    var r := Apply(c, s, step);
    assert r.log == s.log && r.core == s.core;
    if step.CheckRoom? { PosGap(c, |s.log|, |s.log| + 1); }
    assert LockOk(c, r);
    forall k | 0 <= k < |r.log| && r.log[k].status.Reserved? ensures HasOwner(r, k) { QuietOwner(c, s, step, k); }
    forall h | h in r.holders && r.holders[h].Owning? ensures OwnsRecord(c, r, h) { QuietOwns(c, s, step, h); }
  }

  lemma QuietOwner(c: Config, s: State, step: Step, k: nat)
    requires Inv(c, s) && Enabled(c, s, step) && HasOwner(s, k)
    requires step.TimeOut? || step.Enter? || step.CheckRoom? || step.MarkDiscard?
    ensures HasOwner(Apply(c, s, step), k)
  {
    var r := Apply(c, s, step);
    var h :| h in s.holders && s.holders[h].Owning? && s.holders[h].index == k;
    assert h in r.holders && r.holders[h].Owning? && r.holders[h].index == k;
  }

  lemma QuietOwns(c: Config, s: State, step: Step, h: nat)
    requires Inv(c, s) && Enabled(c, s, step)
    requires step.TimeOut? || step.Enter? || step.CheckRoom? || step.MarkDiscard?
    requires h in Apply(c, s, step).holders && Apply(c, s, step).holders[h].Owning?
    ensures OwnsRecord(c, Apply(c, s, step), h)
  {
    assert h in s.holders && s.holders[h].Owning?;
    assert OwnsRecord(c, s, h);
  }

  lemma HeaderRoom(c: Config, s: State)
    requires Inv(c, s) && s.lock.Held? && s.lock.pc.Checked?
    ensures InWindow(c, s.published, |s.log| + 1, |s.log|) && c.sampleSize < DISCARD_BIT
    ensures c.stride <= c.dataSize - 1
  {
    PosOrder(c, s.published, |s.log|);
    PosGap(c, |s.log|, |s.log| + 1);
    SizeFits(c, Pos(c, |s.log| + 1) - Pos(c, s.published));
  }

  lemma HeaderWritten(c: Config, core: Core, n: nat)
    requires ValidCore(c, core) && core.writerPos == Pos(c, n) && c.sampleSize < DISCARD_BIT
    ensures StoreHeader(c, core).mem == WriteAt(core.mem, Pos(c, n), ToBytes(HeaderWord(c, Reserved), HEADER_SIZE))
  {
    ReservedWord(c.sampleSize);
    WriteWrapped(core.mem, Pos(c, n), 0, ToBytes(HeaderWord(c, Reserved), HEADER_SIZE));
  }

  lemma WriteHeaderMemory(c: Config, s: State, mem': Memory)
    requires Inv(c, s) && s.lock.Held? && s.lock.pc.Checked?
    requires mem' == WriteAt(s.core.mem, Pos(c, |s.log|), ToBytes(HeaderWord(c, Reserved), HEADER_SIZE))
    ensures forall k :: s.published <= k < |s.log| ==> Stored(c, mem', k, s.log[k])
    ensures ReadAt(mem', Pos(c, |s.log|), HEADER_SIZE) == ToBytes(HeaderWord(c, Reserved), HEADER_SIZE)
  {
    var n, bs := |s.log|, ToBytes(HeaderWord(c, Reserved), HEADER_SIZE);
    HeaderRoom(c, s);
    forall k | s.published <= k < n ensures Stored(c, mem', k, s.log[k]) {
      OtherRecord(c, s.core.mem, s.published, n + 1, n, 0, bs, k, s.log[k]);
    }
    ReadBack(s.core.mem, Pos(c, n), bs);
  }

  lemma WriteHeaderStep(c: Config, s: State)
    requires Inv(c, s) && Enabled(c, s, WriteHeader)
    ensures Inv(c, Apply(c, s, WriteHeader))
  {
    var r := Apply(c, s, WriteHeader);
    HeaderRoom(c, s);
    HeaderWritten(c, s.core, |s.log|);
    WriteHeaderMemory(c, s, r.core.mem);
    SameHolders(c, s, r);
    assert Cursors(c, r) && LockOk(c, r) && History(c, r) && MemoryOk(c, r);
  }

  // A step that keeps the holders and the outcome of every record keeps their correspondence.
  lemma SameHolders(c: Config, s: State, r: State)
    requires ValidConfig(c) && HoldersOk(c, s)
    requires r.holders == s.holders && |r.log| == |s.log|
    requires forall k :: 0 <= k < |s.log| ==> r.log[k].status == s.log[k].status
    ensures HoldersOk(c, r)
  {
    forall h | h in r.holders && r.holders[h].Owning? ensures OwnsRecord(c, r, h) {
      assert OwnsRecord(c, s, h);
    }
    forall k | 0 <= k < |r.log| && r.log[k].status.Reserved? ensures HasOwner(r, k) {
      assert HasOwner(s, k);
    }
  }

  lemma PublishStep(c: Config, s: State)
    requires Inv(c, s) && Enabled(c, s, PublishRecord)
    ensures Inv(c, Apply(c, s, PublishRecord))
  {
    var r, n := Apply(c, s, PublishRecord), |s.log|;
    PosGap(c, n, n + 1);
    ReadWrapped(s.core.mem, Pos(c, n), HEADER_SIZE, c.sampleSize);
    assert Stored(c, r.core.mem, n, r.log[n]);
    assert MemoryOk(c, r);
    assert r.log[..r.passed] == s.log[..s.passed];
    var g := s.lock.holder;
    forall h | h in r.holders && r.holders[h].Owning? ensures OwnsRecord(c, r, h) {
      if h != g { assert OwnsRecord(c, s, h); }
    }
    forall k | 0 <= k < |r.log| && r.log[k].status.Reserved? ensures HasOwner(r, k) { PublishedOwner(c, s, k); }
  }

  lemma PublishedOwner(c: Config, s: State, k: nat)
    requires Inv(c, s) && Enabled(c, s, PublishRecord) && k <= |s.log|
    requires k < |s.log| ==> HasOwner(s, k)
    ensures HasOwner(Apply(c, s, PublishRecord), k)
  {
    var r, g := Apply(c, s, PublishRecord), s.lock.holder;
    if k == |s.log| {
      assert g in r.holders && r.holders[g].Owning? && r.holders[g].index == k;
    } else {
      var h :| h in s.holders && s.holders[h].Owning? && s.holders[h].index == k;
      assert h in r.holders && r.holders[h].Owning? && r.holders[h].index == k;
    }
  }

  // Facts about the record an owning holder is about to write to.
  lemma OwnedRecord(c: Config, s: State, h: nat) returns (j: nat)
    requires Inv(c, s) && h in s.holders && s.holders[h].Owning?
    ensures j == s.holders[h].index && s.passed <= j < |s.log| && s.log[j].status.Reserved?
    ensures s.holders[h].hdr == Pos(c, j) % c.dataSize && s.holders[h].hdr == Linear(c, Pos(c, j))
    ensures Stored(c, s.core.mem, j, s.log[j])
    ensures c.stride <= c.dataSize - 1 && c.sampleSize < DISCARD_BIT
  {
    assert OwnsRecord(c, s, h);
    j := s.holders[h].index;
    PosOrder(c, s.published, j);
    PosGap(c, j, |s.log|);
    SizeFits(c, s.core.writerPos - s.core.readerPos);
  }

  // The header of a reservation in flight.
  ghost predicate InFlight(c: Config, s: State, mem: Memory)
    requires |mem| > 0
  {
    s.lock.Held? && s.lock.pc.HeaderStored? ==>
      ReadAt(mem, Pos(c, |s.log|), HEADER_SIZE) == ToBytes(HeaderWord(c, Reserved), HEADER_SIZE)
  }

  // A write inside record j keeps everything stored elsewhere.
  lemma WriteElsewhere(c: Config, s: State, j: nat, off: nat, bs: seq<Byte>, mem': Memory)
    requires Inv(c, s) && s.published <= j < |s.log| && off + |bs| <= c.stride
    requires mem' == WriteAt(s.core.mem, Pos(c, j) + off, bs)
    ensures forall k :: s.published <= k < |s.log| && k != j ==> Stored(c, mem', k, s.log[k])
    ensures InFlight(c, s, mem')
  {
    var n := |s.log|;
    forall k | s.published <= k < n && k != j ensures Stored(c, mem', k, s.log[k]) {
      OtherRecord(c, s.core.mem, s.published, n, j, off, bs, k, s.log[k]);
    }
    if s.lock.Held? && s.lock.pc.HeaderStored? {
      OtherRegion(c, s.core.mem, s.published, n + 1, j, off, bs, n, 0, HEADER_SIZE);
    }
  }

  lemma FillMemory(c: Config, s: State, h: nat, off: nat, bytes: seq<Byte>, mem': Memory)
    requires Inv(c, s) && h in s.holders && s.holders[h].Owning? && off + |bytes| <= c.sampleSize
    requires mem' == WriteAt(s.core.mem, s.holders[h].hdr + HEADER_SIZE + off, bytes)
    ensures var j := s.holders[h].index;
            && s.passed <= j < |s.log|
            && (forall k :: s.published <= k < |s.log| && k != j ==> Stored(c, mem', k, s.log[k]))
            && Stored(c, mem', j, s.log[j].(payload := Splice(s.log[j].payload, off, bytes)))
            && InFlight(c, s, mem')
  {
    var j := OwnedRecord(c, s, h);
    WriteWrapped(s.core.mem, Pos(c, j), HEADER_SIZE + off, bytes);
    WriteElsewhere(c, s, j, HEADER_SIZE + off, bytes, mem');
    OwnPayload(c, s.core.mem, mem', j, s.log[j], off, bytes);
  }

  lemma FillStep(c: Config, s: State, step: Step)
    requires Inv(c, s) && Enabled(c, s, step) && step.Fill?
    ensures Inv(c, Apply(c, s, step))
  {
    var r := Apply(c, s, step);
    FillMemory(c, s, step.h, step.off, step.bytes, r.core.mem);
    assert r.log[..r.passed] == s.log[..s.passed];
    SameHolders(c, s, r);
    assert Cursors(c, r) && LockOk(c, r) && History(c, r) && MemoryOk(c, r);
  }

  // What settling does to the three header words.
  lemma SettledWords(c: Config, discard: bool)
    requires c.sampleSize < DISCARD_BIT
    ensures SettledWord(HeaderWord(c, Reserved), discard) == HeaderWord(c, if discard then Discarded else Committed)
  {
    ReservedWord(c.sampleSize);
    DiscardedWord(c.sampleSize);
  }

  lemma SettleWrites(c: Config, s: State, h: nat)
    requires Inv(c, s) && h in s.holders && s.holders[h].Owning?
    ensures var o := s.holders[h];
            Settle(c, s.core, o.hdr, o.discard).mem ==
            WriteAt(s.core.mem, Pos(c, o.index),
                    ToBytes(HeaderWord(c, if o.discard then Discarded else Committed), HEADER_SIZE))
  {
    var o := s.holders[h];
    var j := OwnedRecord(c, s, h);
    ReadHeader(c, s.core, j, Reserved);
    SettledWords(c, o.discard);
    WriteWrapped(s.core.mem, Pos(c, j), 0,
                 ToBytes(HeaderWord(c, if o.discard then Discarded else Committed), HEADER_SIZE));
  }

  lemma SettleMemory(c: Config, s: State, h: nat, status: Status, mem': Memory)
    requires Inv(c, s) && h in s.holders && s.holders[h].Owning?
    requires mem' == WriteAt(s.core.mem, Pos(c, s.holders[h].index), ToBytes(HeaderWord(c, status), HEADER_SIZE))
    ensures var j := s.holders[h].index;
            && s.passed <= j < |s.log|
            && (forall k :: s.published <= k < |s.log| && k != j ==> Stored(c, mem', k, s.log[k]))
            && Stored(c, mem', j, s.log[j].(status := status))
            && InFlight(c, s, mem')
  {
    var j := OwnedRecord(c, s, h);
    WriteElsewhere(c, s, j, 0, ToBytes(HeaderWord(c, status), HEADER_SIZE), mem');
    OwnHeader(c, s.core.mem, mem', j, status, s.log[j]);
  }

  lemma DestroyStep(c: Config, s: State, h: nat)
    requires Inv(c, s) && Enabled(c, s, Destroy(h)) && s.holders[h].Owning?
    ensures Inv(c, Apply(c, s, Destroy(h)))
  {
    var r := Apply(c, s, Destroy(h));
    SettleWrites(c, s, h);
    SettleMemory(c, s, h, if s.holders[h].discard then Discarded else Committed, r.core.mem);
    assert r.log[..r.passed] == s.log[..s.passed];
    DestroyHolders(c, s, r, h);
    assert Cursors(c, r) && LockOk(c, r) && History(c, r) && MemoryOk(c, r);
  }

  lemma DestroyHolders(c: Config, s: State, r: State, h: nat)
    requires ValidConfig(c) && HoldersOk(c, s) && h in s.holders && s.holders[h].Owning?
    requires r.holders == s.holders - {h} && r.log == LogSettle(s.log, s.holders[h].index, s.holders[h].discard)
    ensures HoldersOk(c, r)
  {
    assert OwnsRecord(c, s, h);
    forall g | g in r.holders && r.holders[g].Owning? ensures OwnsRecord(c, r, g) {
      assert OwnsRecord(c, s, g);
    }
    forall k | 0 <= k < |r.log| && r.log[k].status.Reserved? ensures HasOwner(r, k) {
      var g :| g in s.holders && s.holders[g].Owning? && s.holders[g].index == k;
      assert g in r.holders && r.holders[g].Owning? && r.holders[g].index == k;
    }
  }

  lemma DestroyEmpty(c: Config, s: State, h: nat)
    requires Inv(c, s) && Enabled(c, s, Destroy(h)) && s.holders[h].Empty?
    ensures Inv(c, Apply(c, s, Destroy(h)))
  {
    var r := Apply(c, s, Destroy(h));
    forall g | g in r.holders && r.holders[g].Owning? ensures OwnsRecord(c, r, g) {
      assert OwnsRecord(c, s, g);
    }
    forall k | 0 <= k < |r.log| && r.log[k].status.Reserved? ensures HasOwner(r, k) {
      var g :| g in s.holders && s.holders[g].Owning? && s.holders[g].index == k;
      assert g in r.holders && r.holders[g].Owning? && r.holders[g].index == k;
    }
  }

  // --- Reader ---

  // The next record of a session, as the log and the memory have it.
  lemma NextStored(c: Config, s: State)
    requires Inv(c, s) && s.tail.Some? && s.passed < s.tailIndex
    ensures s.core.interPos != s.tail.value && c.sampleSize < DISCARD_BIT
    ensures HeaderAt(s.core, Linear(c, s.core.interPos)) == HeaderWord(c, s.log[s.passed].status)
    ensures ReadAt(s.core.mem, Linear(c, s.core.interPos) + HEADER_SIZE, c.sampleSize) == s.log[s.passed].payload
  {
    var k := s.passed;
    PosGap(c, k, s.tailIndex);
    PosOrder(c, s.tailIndex, |s.log|);
    PosOrder(c, s.published, k);
    SizeFits(c, s.core.writerPos - s.core.readerPos);
    ReadHeader(c, s.core, k, s.log[k].status);
    ReadWrapped(s.core.mem, Pos(c, k), HEADER_SIZE, c.sampleSize);
  }

  // The stride the reader recomputes from a settled header is the one the writer used.
  lemma ReaderStride(c: Config, status: Status)
    requires ValidConfig(c) && c.sampleSize < DISCARD_BIT && !status.Reserved?
    ensures (AndNot(HeaderWord(c, status), DISCARD_BIT) + HEADER_SIZE) % WORD == c.sampleSize + HEADER_SIZE
  {
    SettledSize(c, status);
    WithHeader(AndNot(HeaderWord(c, status), DISCARD_BIT), c.sampleSize);
  }

  lemma SettledSize(c: Config, status: Status)
    requires c.sampleSize < DISCARD_BIT && !status.Reserved?
    ensures AndNot(HeaderWord(c, status), DISCARD_BIT) == c.sampleSize
  {
    DiscardedWord(c.sampleSize);
  }

  lemma WithHeader(n: nat, size: nat)
    requires n == size < DISCARD_BIT
    ensures (n + HEADER_SIZE) % WORD == size + HEADER_SIZE
  {
  }

  // What one turn of GetNext does, in terms of the log.
  lemma NextRecordMeaning(c: Config, s: State)
    requires Inv(c, s) && s.tail.Some?
    ensures var (core', got) := NextRecord(c, s.core, s.tail.value);
            && (got.End? <==> s.passed == s.tailIndex || s.log[s.passed].status.Reserved?)
            && (!got.End? ==> core' == s.core.(interPos := Pos(c, s.passed + 1)))
            && (got.Skipped? <==> s.passed < s.tailIndex && s.log[s.passed].status.Discarded?)
            && (got.Got? ==> got.bytes == s.log[s.passed].payload)
  {
    if s.passed < s.tailIndex {
      var status := s.log[s.passed].status;
      NextStored(c, s);
      FlagTests(c.sampleSize);
      if !status.Reserved? {
        ReaderStride(c, status);
        StrideIsAlignUp(c);
        PosGap(c, s.passed, s.passed + 1);
      }
    }
  }

  lemma {:induction false} CommittedExtend(log: seq<Record>, k: nat)
    requires k < |log|
    ensures CommittedPayloads(log[..k + 1]) ==
            CommittedPayloads(log[..k]) + (if log[k].status.Committed? then [log[k].payload] else [])
  {
    assert log[..k + 1][..k] == log[..k];
  }

  // Passing one settled record, and keeping its payload if it was committed, keeps the invariant.
  lemma PassRecord(c: Config, s: State, r: State)
    requires Inv(c, s) && s.tail.Some? && s.passed < s.tailIndex && !s.log[s.passed].status.Reserved?
    requires r == s.(core := s.core.(interPos := Pos(c, s.passed + 1)), passed := s.passed + 1,
                     delivered := if s.log[s.passed].status.Committed? then s.delivered + [s.log[s.passed].payload]
                                  else s.delivered)
    ensures Inv(c, r)
  {
    CommittedExtend(s.log, s.passed);
    SameHolders(c, s, r);
    assert History(c, r);
    assert MemoryOk(c, r);
  }

  lemma ReadNextStep(c: Config, s: State)
    requires Inv(c, s) && Enabled(c, s, ReadNext)
    ensures Inv(c, Apply(c, s, ReadNext))
  {
    NextRecordMeaning(c, s);
    var got := NextRecord(c, s.core, s.tail.value).1;
    if got.End? {
      assert Apply(c, s, ReadNext) == s;
    } else {
      PassRecord(c, s, Apply(c, s, ReadNext));
    }
  }

  lemma SessionStep(c: Config, s: State, step: Step)
    requires Inv(c, s) && Enabled(c, s, step) && (step.OpenReader? || step.DropReader?)
    ensures Inv(c, Apply(c, s, step))
  {
    var r := Apply(c, s, step);
    PosOrder(c, s.published, s.passed);
    PosOrder(c, s.passed, |s.log|);
    SameHolders(c, s, r);
    assert Cursors(c, r) && LockOk(c, r) && History(c, r) && MemoryOk(c, r);
  }

  lemma StepInv(c: Config, s: State, step: Step)
    requires Inv(c, s) && Enabled(c, s, step)
    ensures Inv(c, Apply(c, s, step))
  {
    match step
    case TimeOut(_) => QuietStep(c, s, step);
    case Enter(_) => QuietStep(c, s, step);
    case CheckRoom => QuietStep(c, s, step);
    case MarkDiscard(_) => QuietStep(c, s, step);
    case WriteHeader => WriteHeaderStep(c, s);
    case PublishRecord => PublishStep(c, s);
    case Fill(_, _, _) => FillStep(c, s, step);
    case Destroy(h) => if s.holders[h].Owning? { DestroyStep(c, s, h); } else { DestroyEmpty(c, s, h); }
    case OpenReader => SessionStep(c, s, step);
    case ReadNext => ReadNextStep(c, s);
    case DropReader => SessionStep(c, s, step);
  }

  lemma {:induction false} RunInv(c: Config, s0: State, steps: seq<Step>, s: State)
    requires Inv(c, s0) && Run(c, s0, steps, s)
    ensures Inv(c, s)
    decreases |steps|
  {
    if steps != [] {
      StepInv(c, s0, steps[0]);
      RunInv(c, Apply(c, s0, steps[0]), steps[1..], s);
    }
  }

  // --- What the invariant means ---

  // Reached from an empty buffer over some memory by some interleaving of steps.
  ghost predicate Reachable(c: Config, s: State) {
    exists mem: Memory, steps: seq<Step> :: Starts(c, mem) && Run(c, Init(mem), steps, s)
  }

  ghost predicate Starts(c: Config, mem: Memory) {
    ValidConfig(c) && |mem| == c.dataSize
  }

  /** Every interleaving of Reserve, Commit, Discard and reader steps keeps the invariant. */
  lemma ReachableInv(c: Config, s: State)
    requires Reachable(c, s)
    ensures Inv(c, s)
  {
    var mem: Memory, steps: seq<Step> :| Starts(c, mem) && Run(c, Init(mem), steps, s);
    InitInv(c, mem);
    RunInv(c, Init(mem), steps, s);
  }

  /** In every run the cursors stay in order, the distance from the reader to the writer never
      exceeds the mask, and the cursors sit on record boundaries of one fixed stride. */
  lemma CursorBounds(c: Config, s: State)
    requires Reachable(c, s)
    ensures Inv(c, s)
    ensures s.core.readerPos <= s.core.interPos <= s.core.writerPos
    ensures s.core.writerPos - s.core.readerPos <= c.dataSize - 1
    ensures s.core.writerPos == |s.log| * c.stride && s.core.interPos == s.passed * c.stride
    ensures s.core.readerPos == s.published * c.stride
  {
    ReachableInv(c, s);
    PosOrder(c, s.published, s.passed);
    PosOrder(c, s.passed, |s.log|);
  }

  /** No two outstanding records share a byte of the data area. */
  lemma NoSharedByte(c: Config, s: State, j: nat, a: nat, k: nat, b: nat)
    requires Reachable(c, s)
    requires ValidConfig(c) && s.published <= j < |s.log| && s.published <= k < |s.log| && j != k
    requires a < c.stride && b < c.stride
    ensures c.dataSize > 0
    ensures (j * c.stride + a) % c.dataSize != (k * c.stride + b) % c.dataSize
  {
    ReachableInv(c, s);
    if j < k { ApartWithinLap(c, s, j, a, k, b); } else { ApartWithinLap(c, s, k, b, j, a); }
  }

  lemma ApartWithinLap(c: Config, s: State, j: nat, a: nat, k: nat, b: nat)
    requires Inv(c, s) && s.published <= j < k < |s.log| && a < c.stride && b < c.stride
    ensures (Pos(c, j) + a) % c.dataSize != (Pos(c, k) + b) % c.dataSize
  {
    LessThanLap(c, s, j, a, k, b);
    NotSameByte(c.dataSize, Pos(c, j) + a, Pos(c, k) + b);
  }

  lemma LessThanLap(c: Config, s: State, j: nat, a: nat, k: nat, b: nat)
    requires Inv(c, s) && s.published <= j < k < |s.log| && a < c.stride && b < c.stride
    ensures 0 < c.dataSize && 0 < Pos(c, k) + b - (Pos(c, j) + a) < c.dataSize
  {
    PosGap(c, j, k);
    PosGap(c, k, |s.log|);
    PosOrder(c, s.published, j);
  }

  lemma NotSameByte(d: nat, p: nat, q: nat)
    requires 0 < q - p < d
    ensures p % d != q % d
  {
    Distance(d, p, q, q - p);
    Distance(d, p, p, 0);
  }

  /** Over all reader sessions of a run, what GetNext handed out is, in reservation order, exactly the
      payloads of the committed records it has passed; it passed no record that is still reserved. */
  lemma DeliveredExactly(c: Config, s: State)
    requires Reachable(c, s)
    ensures s.passed <= |s.log| && s.delivered == CommittedPayloads(s.log[..s.passed])
    ensures forall k :: 0 <= k < s.passed ==> !s.log[k].status.Reserved?
  {
    ReachableInv(c, s);
  }

  // A settled record never changes again and what was delivered stays delivered.
  ghost predicate Extends(s0: State, s: State) {
    && |s0.log| <= |s.log| && s0.passed <= s.passed && s0.delivered <= s.delivered
    && forall k :: 0 <= k < |s0.log| && !s0.log[k].status.Reserved? ==> s.log[k] == s0.log[k]
  }

  lemma StepExtends(c: Config, s: State, step: Step)
    requires Inv(c, s) && Enabled(c, s, step)
    ensures Extends(s, Apply(c, s, step))
  {
    if step.Fill? || step.Destroy? {
      if s.holders[step.h].Owning? { assert OwnsRecord(c, s, step.h); }
    }
  }

  /** Each reservation is settled at most once: once committed or discarded, its outcome and its
      payload are fixed for the rest of every run. */
  lemma {:induction false} SettledOnce(c: Config, s0: State, steps: seq<Step>, s: State)
    requires Inv(c, s0) && Run(c, s0, steps, s)
    ensures Extends(s0, s)
    decreases |steps|
  {
    if steps != [] {
      StepInv(c, s0, steps[0]);
      StepExtends(c, s0, steps[0]);
      SettledOnce(c, Apply(c, s0, steps[0]), steps[1..], s);
    }
  }

  // The header before and after a holder is destroyed.
  lemma SettledHeaders(c: Config, s: State, h: nat)
    requires Inv(c, s) && h in s.holders && s.holders[h].Owning?
    ensures var o := s.holders[h];
            && c.sampleSize < DISCARD_BIT
            && HeaderAt(s.core, o.hdr) == HeaderWord(c, Reserved)
            && HeaderAt(Apply(c, s, Destroy(h)).core, o.hdr) ==
               HeaderWord(c, if o.discard then Discarded else Committed)
  {
    var o := s.holders[h];
    var j := OwnedRecord(c, s, h);
    ReadHeader(c, s.core, j, Reserved);
    var status := if o.discard then Discarded else Committed;
    var r := Apply(c, s, Destroy(h));
    SettleWrites(c, s, h);
    SettleMemory(c, s, h, status, r.core.mem);
    ReadHeader(c, r.core, j, status);
  }

  /** Destroying a holder that owns a buffer finds the reserved bit set, clears it, and leaves the
      size and the chosen outcome in the header. */
  lemma SettleClearsReserved(c: Config, s: State, h: nat)
    requires Reachable(c, s) && h in s.holders && s.holders[h].Owning?
    ensures Inv(c, s)
    ensures var o := s.holders[h];
            var after := HeaderAt(Apply(c, s, Destroy(h)).core, o.hdr);
            && IsReserved(HeaderAt(s.core, o.hdr)) && !IsReserved(after)
            && IsDiscarded(after) == o.discard
            && AndNot(after, DISCARD_BIT) == c.sampleSize
  {
    ReachableInv(c, s);
    SettledHeaders(c, s, h);
    FlagTests(c.sampleSize);
    DiscardedWord(c.sampleSize);
  }

  /** The bytes of a buffer that GetNext handed out stay what their writer committed, at the same
      address and across the wrap, until that reader is destroyed. */
  lemma HandedOutBytesStay(c: Config, s0: State, steps: seq<Step>, s: State, k: nat)
    requires Inv(c, s0) && Run(c, s0, steps, s)
    requires s0.published <= k < s0.passed && s0.log[k].status.Committed?
    requires DropReader !in steps
    ensures ValidCore(c, s.core)
    ensures ReadAt(s.core.mem, Linear(c, Pos(c, k)) + HEADER_SIZE, c.sampleSize) == s0.log[k].payload
  {
    RunInv(c, s0, steps, s);
    SettledOnce(c, s0, steps, s);
    SamePublished(c, s0, steps, s);
    PayloadAt(c, s, k);
  }

  // The payload of an outstanding record, at its address.
  lemma PayloadAt(c: Config, s: State, k: nat)
    requires Inv(c, s) && s.published <= k < |s.log|
    ensures ReadAt(s.core.mem, Linear(c, Pos(c, k)) + HEADER_SIZE, c.sampleSize) == s.log[k].payload
  {
    assert Stored(c, s.core.mem, k, s.log[k]);
    ReadWrapped(s.core.mem, Pos(c, k), HEADER_SIZE, c.sampleSize);
  }

  lemma {:induction false} SamePublished(c: Config, s0: State, steps: seq<Step>, s: State)
    requires Inv(c, s0) && Run(c, s0, steps, s) && DropReader !in steps
    ensures s.published == s0.published
    decreases |steps|
  {
    if steps != [] {
      StepInv(c, s0, steps[0]);
      assert steps[0] in steps;
      SamePublished(c, Apply(c, s0, steps[0]), steps[1..], s);
    }
  }

  /** Whenever a reader may be opened, the two assertions of its constructor hold. */
  lemma ReaderAssertions(c: Config, s: State)
    requires Reachable(c, s)
    requires Enabled(c, s, OpenReader)
    ensures s.core.interPos <= s.core.writerPos && s.core.interPos == s.core.readerPos
  {
    CursorBounds(c, s);
    ReachableInv(c, s);
  }

  /** AvailableSamples is the number of records of the session not yet passed. */
  lemma AvailableSamples(c: Config, s: State)
    requires Reachable(c, s) && s.tail.Some?
    ensures ValidConfig(c) && s.core.interPos <= s.tail.value && s.passed <= s.tailIndex <= |s.log|
    ensures (s.tail.value - s.core.interPos) / c.stride == s.tailIndex - s.passed
  {
    ReachableInv(c, s);
    PosOrder(c, s.passed, s.tailIndex);
    CountStrides(s.passed, s.tailIndex, c.stride);
  }

  lemma CountStrides(a: nat, b: nat, d: nat)
    requires a <= b && d > 0
    ensures (b * d - a * d) / d == b - a
  {
    assert b * d - a * d == (b - a) * d;
    DivUnique((b - a) * d, d, b - a, 0);
  }
}
