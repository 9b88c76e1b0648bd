/** The protocol's memory and the address space it stands for: every access of the ring buffer, made through
    the double mapping of the file, is the access to the data area modulo its size. */
module RingMapping {
  import opened Words
  import opened RingArithmetic
  import opened RingMemory
  import opened RingCore
  import opened RingProtocol
  import opened RingSafety

  // --- Single accesses ---

  // The data part of the file behind the mapping.
  function DataOf(file: seq<Byte>, meta: nat): Memory
    requires meta <= |file|
  {
    file[meta..]
  }

  ghost predicate IsFile(file: seq<Byte>, d: nat, meta: nat) {
    d > 0 && |file| == meta + d
  }

  // The file byte behind byte i of the mapped data area.
  function ByteBehind(d: nat, meta: nat, i: nat): (r: nat)
    requires i < 2 * d
    ensures r == meta + i % d && r < meta + d
  {
    DoubleMapping(d, meta, i);
    MappedSpace(d, meta)[meta + i].offset
  }

  function MappedRead(file: seq<Byte>, d: nat, meta: nat, p: nat, len: nat): (r: seq<Byte>)
    requires IsFile(file, d, meta) && p + len <= 2 * d
    ensures |r| == len
  {
    seq(len, j requires 0 <= j < len => file[ByteBehind(d, meta, p + j)])
  }

  // Stores the bytes one after the other.
  function MappedWrite(file: seq<Byte>, d: nat, meta: nat, p: nat, bs: seq<Byte>): (r: seq<Byte>)
    requires IsFile(file, d, meta) && p + |bs| <= 2 * d
    ensures IsFile(r, d, meta)
    decreases |bs|
  {
    if bs == [] then file
    else
      var init := MappedWrite(file, d, meta, p, bs[..|bs| - 1]);
      init[ByteBehind(d, meta, p + |bs| - 1) := bs[|bs| - 1]]
  }

  /** Reading through the mapping is reading the data area modulo its size. */
  lemma MappedReadIs(file: seq<Byte>, d: nat, meta: nat, p: nat, len: nat)
    requires IsFile(file, d, meta) && p + len <= 2 * d
    ensures MappedRead(file, d, meta, p, len) == ReadAt(DataOf(file, meta), p, len)
  {
    var mem := DataOf(file, meta);
    forall j | 0 <= j < len ensures MappedRead(file, d, meta, p, len)[j] == ReadAt(mem, p, len)[j] {
      assert file[ByteBehind(d, meta, p + j)] == mem[(p + j) % d];
    }
  }

  /** Writing through the mapping is writing the data area modulo its size, and nothing else. */
  lemma {:induction false} MappedWriteIs(file: seq<Byte>, d: nat, meta: nat, p: nat, bs: seq<Byte>)
    requires IsFile(file, d, meta) && p + |bs| <= 2 * d && |bs| <= d
    ensures DataOf(MappedWrite(file, d, meta, p, bs), meta) == WriteAt(DataOf(file, meta), p, bs)
    ensures MappedWrite(file, d, meta, p, bs)[..meta] == file[..meta]
    decreases |bs|
  {
    var mem := DataOf(file, meta);
    if bs == [] {
      assert WriteAt(mem, p, []) == mem;
    } else {
      var last := |bs| - 1;
      var init := MappedWrite(file, d, meta, p, bs[..last]);
      MappedWriteIs(file, d, meta, p, bs[..last]);
      WriteOneMore(mem, p, bs, last);
      assert bs[..last + 1] == bs;
      var x := (p + last) % d;
      assert ByteBehind(d, meta, p + last) == meta + x;
      assert DataOf(init[meta + x := bs[last]], meta) == DataOf(init, meta)[x := bs[last]];
    }
  }

  // --- The accesses of the protocol ---

  // A record that is outstanding or about to be published lies below twice the size, wherever it starts.
  lemma RecordBelowTwice(c: Config, pos: nat)
    requires ValidConfig(c) && c.stride <= c.dataSize - 1
    ensures Linear(c, pos) < c.dataSize && Linear(c, pos) + c.stride < 2 * c.dataSize
    ensures HEADER_SIZE + c.sampleSize <= c.stride
  {
    StrideIsAlignUp(c);
  }

  // Where the step stores, and what.
  function StoreOf(c: Config, s: State, step: Step): (r: (nat, seq<Byte>))
    requires ValidCore(c, s.core) && Enabled(c, s, step)
  {
    match step
    case WriteHeader => (Linear(c, s.core.writerPos), ToBytes(Or(c.sampleSize, RESERVED_BIT), HEADER_SIZE))
    case Fill(h, off, bytes) => (s.holders[h].hdr + HEADER_SIZE + off, bytes)
    case Destroy(h) =>
      var o := s.holders[h];
      if o.Owning? then (o.hdr, ToBytes(SettledWord(HeaderAt(s.core, o.hdr), o.discard), HEADER_SIZE)) else (0, [])
    case _ => (0, [])
  }

  lemma StoreBelowTwice(c: Config, s: State, step: Step)
    requires Inv(c, s) && Enabled(c, s, step)
    ensures var (p, bs) := StoreOf(c, s, step); p + |bs| <= 2 * c.dataSize && |bs| <= c.dataSize
  {
    match step
    case WriteHeader =>
      HeaderRoom(c, s);
      RecordBelowTwice(c, s.core.writerPos);
    case Fill(h, off, bytes) =>
      var j := OwnedRecord(c, s, h);
      RecordBelowTwice(c, Pos(c, j));
    case Destroy(h) =>
      if s.holders[h].Owning? {
        var j := OwnedRecord(c, s, h);
        RecordBelowTwice(c, Pos(c, j));
      }
    case _ =>
  }

  lemma StoreIsStep(c: Config, s: State, step: Step)
    requires Inv(c, s) && Enabled(c, s, step)
    ensures var (p, bs) := StoreOf(c, s, step); Apply(c, s, step).core.mem == WriteAt(s.core.mem, p, bs)
  {
    assert WriteAt(s.core.mem, 0, []) == s.core.mem;
  }

  // The step, made through the mapping.
  function FileStep(c: Config, meta: nat, s: State, step: Step, file: seq<Byte>): (r: seq<Byte>)
    requires Inv(c, s) && Enabled(c, s, step) && IsFile(file, c.dataSize, meta)
    ensures IsFile(r, c.dataSize, meta)
  {
    StoreBelowTwice(c, s, step);
    var (p, bs) := StoreOf(c, s, step);
    MappedWrite(file, c.dataSize, meta, p, bs)
  }

  function FileRun(c: Config, meta: nat, s: State, steps: seq<Step>, file: seq<Byte>, ghost end: State)
    : (r: seq<Byte>)
    requires Inv(c, s) && Run(c, s, steps, end) && IsFile(file, c.dataSize, meta)
    ensures IsFile(r, c.dataSize, meta)
    decreases |steps|
  {
    if steps == [] then file
    else
      StepInv(c, s, steps[0]);
      FileRun(c, meta, Apply(c, s, steps[0]), steps[1..], FileStep(c, meta, s, steps[0], file), end)
  }

  lemma FileStepIs(c: Config, meta: nat, s: State, step: Step, file: seq<Byte>)
    requires Inv(c, s) && Enabled(c, s, step) && IsFile(file, c.dataSize, meta) && DataOf(file, meta) == s.core.mem
    ensures DataOf(FileStep(c, meta, s, step, file), meta) == Apply(c, s, step).core.mem
    ensures FileStep(c, meta, s, step, file)[..meta] == file[..meta]
  {
    var (p, bs) := StoreOf(c, s, step);
    StoreBelowTwice(c, s, step);
    StoreIsStep(c, s, step);
    MappedWriteIs(file, c.dataSize, meta, p, bs);
  }

  /** Made through the mapping, every run leaves the file with the protocol's memory behind its metadata, and
      the metadata as it was. */
  lemma {:induction false} FileRunIs(c: Config, meta: nat, s0: State, steps: seq<Step>, s: State, file: seq<Byte>)
    requires Inv(c, s0) && Run(c, s0, steps, s) && IsFile(file, c.dataSize, meta) && DataOf(file, meta) == s0.core.mem
    ensures DataOf(FileRun(c, meta, s0, steps, file, s), meta) == s.core.mem
    ensures FileRun(c, meta, s0, steps, file, s)[..meta] == file[..meta]
    decreases |steps|
  {
    if steps != [] {
      StepInv(c, s0, steps[0]);
      FileStepIs(c, meta, s0, steps[0], file);
      FileRunIs(c, meta, Apply(c, s0, steps[0]), steps[1..], s, FileStep(c, meta, s0, steps[0], file));
    }
  }

  /** What the reader is handed: the bytes at the buffer's own consecutive addresses, straddling the wrap or
      not, are what the writer committed, until the reader is dropped, whatever the other threads store
      through the mapping meanwhile. */
  lemma HandedOutThroughMapping(c: Config, meta: nat, s0: State, steps: seq<Step>, s: State, k: nat, file: seq<Byte>)
    requires Inv(c, s0) && Run(c, s0, steps, s) && IsFile(file, c.dataSize, meta) && DataOf(file, meta) == s0.core.mem
    requires s0.published <= k < s0.passed && s0.log[k].status.Committed? && DropReader !in steps
    ensures var (end, p) := (FileRun(c, meta, s0, steps, file, s), Linear(c, Pos(c, k)) + HEADER_SIZE);
            && p + c.sampleSize <= 2 * c.dataSize
            && MappedRead(end, c.dataSize, meta, p, c.sampleSize) == s0.log[k].payload
  {
    FileRunIs(c, meta, s0, steps, s, file);
    HandedOutFrom(c, meta, s0, steps, s, k, FileRun(c, meta, s0, steps, file, s));
  }

  // The same for the file at the end of the run.
  lemma HandedOutFrom(c: Config, meta: nat, s0: State, steps: seq<Step>, s: State, k: nat, file: seq<Byte>)
    requires Inv(c, s0) && Run(c, s0, steps, s) && IsFile(file, c.dataSize, meta) && DataOf(file, meta) == s.core.mem
    requires s0.published <= k < s0.passed && s0.log[k].status.Committed? && DropReader !in steps
    ensures var p := Linear(c, Pos(c, k)) + HEADER_SIZE;
            && p + c.sampleSize <= 2 * c.dataSize
            && MappedRead(file, c.dataSize, meta, p, c.sampleSize) == s0.log[k].payload
  {
    HandedOutBytesStay(c, s0, steps, s, k);
    OutstandingFits(c, s0, k);
    RecordThroughMapping(c, meta, Pos(c, k), file);
  }

  // A record read through the mapping, its header and its payload.
  lemma RecordThroughMapping(c: Config, meta: nat, pos: nat, file: seq<Byte>)
    requires ValidConfig(c) && c.stride <= c.dataSize - 1 && IsFile(file, c.dataSize, meta)
    ensures var (p, mem) := (Linear(c, pos), DataOf(file, meta));
            && p + HEADER_SIZE + c.sampleSize <= 2 * c.dataSize
            && MappedRead(file, c.dataSize, meta, p, HEADER_SIZE) == ReadAt(mem, p, HEADER_SIZE)
            && MappedRead(file, c.dataSize, meta, p + HEADER_SIZE, c.sampleSize) ==
               ReadAt(mem, p + HEADER_SIZE, c.sampleSize)
  {
    RecordBelowTwice(c, pos);
    MappedReadIs(file, c.dataSize, meta, Linear(c, pos), HEADER_SIZE);
    MappedReadIs(file, c.dataSize, meta, Linear(c, pos) + HEADER_SIZE, c.sampleSize);
  }

  lemma OutstandingFits(c: Config, s: State, k: nat)
    requires Inv(c, s) && s.published <= k < |s.log|
    ensures c.stride <= c.dataSize - 1
  {
    PosOrder(c, s.published, k);
    PosGap(c, k, |s.log|);
  }

  /** What the reader looks at next, its header and, if it is committed, its payload, is read through the
      mapping as the protocol reads it. */
  lemma NextReadThroughMapping(c: Config, meta: nat, s: State, file: seq<Byte>)
    requires Inv(c, s) && s.tail.Some? && s.passed < s.tailIndex
    requires IsFile(file, c.dataSize, meta) && DataOf(file, meta) == s.core.mem
    ensures var p := Linear(c, s.core.interPos);
            && p + HEADER_SIZE + c.sampleSize <= 2 * c.dataSize
            && FromBytes(MappedRead(file, c.dataSize, meta, p, HEADER_SIZE)) == HeaderAt(s.core, p)
            && MappedRead(file, c.dataSize, meta, p + HEADER_SIZE, c.sampleSize) == s.log[s.passed].payload
  {
    OutstandingFits(c, s, s.passed);
    RecordThroughMapping(c, meta, s.core.interPos, file);
    PayloadAt(c, s, s.passed);
  }
}
