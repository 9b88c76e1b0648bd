/** The ring buffer under concurrency: any number of sample holders and one reader, interleaved at
    every atomic access, with the history of all reservations kept beside the memory. */
module RingProtocol {
  import opened Collections
  import opened Words
  import opened RingArithmetic
  import opened RingMemory
  import opened RingCore

  datatype Status = Reserved | Committed | Discarded

  /** One reservation: what became of it and the payload bytes its writer has stored so far. */
  datatype Record = Record(status: Status, payload: seq<Byte>)

  // Where the thread that owns the lock is inside Reserve.
  datatype ReservePc = Entered | Checked | HeaderStored

  datatype Lock = Free | Held(holder: nat, pc: ReservePc)

  /** A SampleHolder: still reserving, owning a buffer, or left without one. */
  datatype Holder = Reserving | Owning(hdr: nat, discard: bool, index: nat) | Empty

  /** The shared state, the holders, the reader session, and the history: the log of reservations in
      order, how many of them the reader has passed and published, and every buffer it handed out. */
  datatype State = State(core: Core, lock: Lock, holders: map<nat, Holder>, tail: Option<nat>,
                         log: seq<Record>, passed: nat, published: nat, tailIndex: nat,
                         delivered: seq<seq<Byte>>)

  datatype Step =
    | TimeOut(h: nat)
    | Enter(h: nat)
    | CheckRoom
    | WriteHeader
    | PublishRecord
    | Fill(h: nat, off: nat, bytes: seq<Byte>)
    | MarkDiscard(h: nat)
    | Destroy(h: nat)
    | OpenReader
    | ReadNext
    | DropReader

  // Which steps the program text allows; it never looks at the records themselves.
  predicate Enabled(c: Config, s: State, step: Step) {
    match step
    case TimeOut(h) => h !in s.holders
    case Enter(h) => h !in s.holders && s.lock.Free?
    case CheckRoom => s.lock.Held? && s.lock.pc.Entered?
    case WriteHeader => s.lock.Held? && s.lock.pc.Checked?
    case PublishRecord => s.lock.Held? && s.lock.pc.HeaderStored?
    case Fill(h, off, bytes) => h in s.holders && s.holders[h].Owning? && off + |bytes| <= c.sampleSize
    case MarkDiscard(h) => h in s.holders && s.holders[h].Owning?
    case Destroy(h) => h in s.holders && !s.holders[h].Reserving?
    case OpenReader => s.tail.None?
    case ReadNext => s.tail.Some?
    case DropReader => s.tail.Some?
  }

  function Apply(c: Config, s: State, step: Step): (r: State)
    requires ValidCore(c, s.core) && Enabled(c, s, step)
    ensures ValidCore(c, r.core)
  {
    match step
    case TimeOut(h) => s.(holders := s.holders[h := Empty])
    case Enter(h) => s.(lock := Held(h, Entered), holders := s.holders[h := Reserving])
    case CheckRoom =>
      if HasRoom(c, s.core) then s.(lock := s.lock.(pc := Checked))
      else s.(lock := Free, holders := s.holders[s.lock.holder := Empty])
    case WriteHeader => s.(core := StoreHeader(c, s.core), lock := s.lock.(pc := HeaderStored))
    case PublishRecord =>
      var hdr := Linear(c, s.core.writerPos);
      s.(core := Publish(c, s.core), lock := Free,
         holders := s.holders[s.lock.holder := Owning(hdr, false, |s.log|)],
         log := s.log + [Record(Reserved, ReadAt(s.core.mem, hdr + HEADER_SIZE, c.sampleSize))])
    case Fill(h, off, bytes) =>
      var o := s.holders[h];
      s.(core := s.core.(mem := WriteAt(s.core.mem, o.hdr + HEADER_SIZE + off, bytes)),
         log := LogFill(s.log, o.index, off, bytes))
    case MarkDiscard(h) => s.(holders := s.holders[h := s.holders[h].(discard := true)])
    case Destroy(h) =>
      var o := s.holders[h];
      if o.Empty? then s.(holders := s.holders - {h})
      else
        s.(core := Settle(c, s.core, o.hdr, o.discard), holders := s.holders - {h},
           log := LogSettle(s.log, o.index, o.discard))
    case OpenReader => s.(tail := Some(s.core.writerPos), tailIndex := |s.log|)
    case ReadNext =>
      var (core', got) := NextRecord(c, s.core, s.tail.value);
      s.(core := core', passed := if got.End? then s.passed else s.passed + 1,
         delivered := if got.Got? then s.delivered + [got.bytes] else s.delivered)
    case DropReader => s.(core := CloseReader(c, s.core), tail := None, published := s.passed)
  }

  // History only: the payload written so far, and the outcome of a record.
  function LogFill(log: seq<Record>, k: nat, off: nat, bytes: seq<Byte>): seq<Record> {
    if k < |log| && off + |bytes| <= |log[k].payload|
    then log[k := log[k].(payload := Splice(log[k].payload, off, bytes))] else log
  }

  function LogSettle(log: seq<Record>, k: nat, discard: bool): seq<Record> {
    if k < |log| then log[k := log[k].(status := if discard then Discarded else Committed)] else log
  }

  // s is reached from s0 by the steps, each enabled where it is taken.
  ghost predicate Run(c: Config, s0: State, steps: seq<Step>, s: State)
    requires ValidCore(c, s0.core)
    decreases |steps|
  {
    if steps == [] then s == s0
    else Enabled(c, s0, steps[0]) && Run(c, Apply(c, s0, steps[0]), steps[1..], s)
  }

  function Init(mem: Memory): State {
    State(Core(mem, 0, 0, 0), Free, map[], None, [], 0, 0, 0, [])
  }

  // --- Invariant ---

  // The position of the k-th reservation: k strides from the start.
  function Pos(c: Config, k: nat): nat {
    k * c.stride
  }

  function HeaderWord(c: Config, status: Status): nat {
    match status
    case Reserved => c.sampleSize + RESERVED_BIT
    case Committed => c.sampleSize
    case Discarded => c.sampleSize + DISCARD_BIT
  }

  // The memory at record k holds exactly what the log says.
  ghost predicate Stored(c: Config, mem: Memory, k: nat, r: Record)
    requires ValidConfig(c) && |mem| > 0
  {
    && ReadAt(mem, Pos(c, k), HEADER_SIZE) == ToBytes(HeaderWord(c, r.status), HEADER_SIZE)
    && ReadAt(mem, Pos(c, k) + HEADER_SIZE, c.sampleSize) == r.payload
  }

  ghost predicate Cursors(c: Config, s: State)
    requires ValidConfig(c)
  {
    && s.core.writerPos == Pos(c, |s.log|)
    && s.core.readerPos == Pos(c, s.published)
    && s.core.interPos == Pos(c, s.passed)
    && s.published <= s.passed <= |s.log|
    && s.core.writerPos - s.core.readerPos <= c.dataSize - 1
    && (s.tail.None? ==> s.passed == s.published)
    && (s.tail.Some? ==> s.tail.value == Pos(c, s.tailIndex) && s.passed <= s.tailIndex <= |s.log|)
  }

  ghost predicate LockOk(c: Config, s: State)
    requires ValidCore(c, s.core)
  {
    && (forall h :: h in s.holders && s.holders[h].Reserving? <==> s.lock.Held? && s.lock.holder == h)
    && (s.lock.Held? && !s.lock.pc.Entered? ==> Pos(c, |s.log| + 1) - s.core.readerPos <= c.dataSize - 1)
    && (s.lock.Held? && s.lock.pc.HeaderStored? ==>
          ReadAt(s.core.mem, Pos(c, |s.log|), HEADER_SIZE) == ToBytes(HeaderWord(c, Reserved), HEADER_SIZE))
  }

  // Reserved records and owning holders are in one-to-one correspondence.
  ghost predicate HoldersOk(c: Config, s: State)
    requires ValidConfig(c)
  {
    && (forall h :: h in s.holders && s.holders[h].Owning? ==> OwnsRecord(c, s, h))
    && (forall h, g :: h in s.holders && g in s.holders && h != g && s.holders[h].Owning? && s.holders[g].Owning?
          ==> s.holders[h].index != s.holders[g].index)
    && (forall k :: 0 <= k < |s.log| && s.log[k].status.Reserved? ==> HasOwner(s, k))
  }

  ghost predicate OwnsRecord(c: Config, s: State, h: nat)
    requires ValidConfig(c) && h in s.holders && s.holders[h].Owning?
  {
    var o := s.holders[h];
    && o.index < |s.log|
    && s.log[o.index].status.Reserved?
    && o.hdr == Linear(c, Pos(c, o.index))
  }

  ghost predicate HasOwner(s: State, k: nat) {
    exists h :: h in s.holders && s.holders[h].Owning? && s.holders[h].index == k
  }

  // The payloads of the committed records, in reservation order.
  function CommittedPayloads(log: seq<Record>): seq<seq<Byte>> {
    if log == [] then []
    else
      var rest := CommittedPayloads(log[..|log| - 1]);
      if log[|log| - 1].status.Committed? then rest + [log[|log| - 1].payload] else rest
  }

  ghost predicate History(c: Config, s: State)
    requires s.passed <= |s.log|
  {
    && (forall k :: 0 <= k < |s.log| ==> |s.log[k].payload| == c.sampleSize)
    && (forall k :: 0 <= k < s.passed ==> !s.log[k].status.Reserved?)
    && s.delivered == CommittedPayloads(s.log[..s.passed])
  }

  ghost predicate MemoryOk(c: Config, s: State)
    requires ValidCore(c, s.core)
  {
    forall k :: s.published <= k < |s.log| ==> Stored(c, s.core.mem, k, s.log[k])
  }

  ghost predicate Inv(c: Config, s: State) {
    ValidCore(c, s.core) && Cursors(c, s) && LockOk(c, s) && HoldersOk(c, s) && History(c, s) && MemoryOk(c, s)
  }

  // --- Arithmetic of positions ---

  lemma PosGap(c: Config, j: nat, k: nat)
    requires j < k
    ensures Pos(c, j) + c.stride <= Pos(c, k)
    ensures Pos(c, j + 1) == Pos(c, j) + c.stride
  {
    MulMono(j + 1, k, c.stride);
    assert (j + 1) * c.stride == j * c.stride + c.stride;
  }

  lemma PosOrder(c: Config, j: nat, k: nat)
    requires j <= k
    ensures Pos(c, j) <= Pos(c, k)
  {
    if j < k { PosGap(c, j, k); }
  }

  // Whenever some record is outstanding or admitted, its size fits below the header flags.
  lemma SizeFits(c: Config, used: nat)
    requires ValidConfig(c) && c.stride <= used <= c.dataSize - 1
    ensures c.sampleSize < DISCARD_BIT
  {
    var k: nat :| 3 <= k <= 62 && c.dataSize == Pow2(k);
    Pow2Values();
    if k < 62 { Pow2Mono(k, 62); }
  }

  // --- Separation: a write inside record j leaves every other record of the window alone ---

  ghost predicate InWindow(c: Config, first: nat, limit: nat, j: nat)
    requires ValidConfig(c)
  {
    first <= j < limit && Pos(c, limit) - Pos(c, first) <= c.dataSize - 1
  }

  lemma OtherRegion(c: Config, mem: Memory, first: nat, limit: nat, j: nat, off: nat, bs: seq<Byte>,
                    k: nat, at: nat, len: nat)
    requires ValidConfig(c) && |mem| == c.dataSize
    requires InWindow(c, first, limit, j) && InWindow(c, first, limit, k) && j != k
    requires off + |bs| <= c.stride && at + len <= c.stride
    ensures ReadAt(WriteAt(mem, Pos(c, j) + off, bs), Pos(c, k) + at, len) == ReadAt(mem, Pos(c, k) + at, len)
  {
    PosOrder(c, first, j); PosOrder(c, first, k);
    PosGap(c, j, limit); PosGap(c, k, limit);
    if j < k { PosGap(c, j, k); } else { PosGap(c, k, j); }
    ReadOther(mem, Pos(c, j) + off, bs, Pos(c, k) + at, len);
  }

  lemma OtherRecord(c: Config, mem: Memory, first: nat, limit: nat, j: nat, off: nat, bs: seq<Byte>, k: nat, r: Record)
    requires ValidConfig(c) && |mem| == c.dataSize
    requires InWindow(c, first, limit, j) && InWindow(c, first, limit, k) && j != k
    requires off + |bs| <= c.stride && Stored(c, mem, k, r)
    ensures Stored(c, WriteAt(mem, Pos(c, j) + off, bs), k, r)
  {
    OtherRegion(c, mem, first, limit, j, off, bs, k, 0, HEADER_SIZE);
    OtherRegion(c, mem, first, limit, j, off, bs, k, HEADER_SIZE, c.sampleSize);
  }

  // Writing the header of a record replaces its header and keeps its payload.
  lemma OwnHeader(c: Config, mem: Memory, mem': Memory, k: nat, status: Status, r: Record)
    requires ValidConfig(c) && |mem| == c.dataSize && c.stride <= c.dataSize
    requires mem' == WriteAt(mem, Pos(c, k), ToBytes(HeaderWord(c, status), HEADER_SIZE))
    requires Stored(c, mem, k, r)
    ensures Stored(c, mem', k, r.(status := status))
  {
    var bs := ToBytes(HeaderWord(c, status), HEADER_SIZE);
    ReadBack(mem, Pos(c, k), bs);
    ReadOther(mem, Pos(c, k), bs, Pos(c, k) + HEADER_SIZE, c.sampleSize);
  }

  // Filling payload bytes keeps the header.
  lemma OwnPayload(c: Config, mem: Memory, mem': Memory, k: nat, r: Record, off: nat, bs: seq<Byte>)
    requires ValidConfig(c) && |mem| == c.dataSize && c.stride <= c.dataSize
    requires Stored(c, mem, k, r) && off + |bs| <= c.sampleSize
    requires mem' == WriteAt(mem, Pos(c, k) + HEADER_SIZE + off, bs)
    ensures Stored(c, mem', k, r.(payload := Splice(r.payload, off, bs)))
  {
    var p := Pos(c, k) + HEADER_SIZE;
    ReadSplice(mem, p, c.sampleSize, off, bs);
    ReadOther(mem, p + off, bs, Pos(c, k), HEADER_SIZE);
  }

  lemma ReadHeader(c: Config, core: Core, k: nat, status: Status)
    requires ValidCore(c, core) && c.sampleSize < DISCARD_BIT
    requires ReadAt(core.mem, Pos(c, k), HEADER_SIZE) == ToBytes(HeaderWord(c, status), HEADER_SIZE)
    ensures HeaderAt(core, Linear(c, Pos(c, k))) == HeaderWord(c, status)
  {
    ReadWrapped(core.mem, Pos(c, k), 0, HEADER_SIZE);
    Pow2Values();
    BytesRoundTrip(HeaderWord(c, status), HEADER_SIZE);
  }
}
