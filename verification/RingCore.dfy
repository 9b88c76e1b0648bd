/** The operations of the sample ring buffer on its memory and its three cursors, one function per
    atomic access of the source. */
module RingCore {
  import opened Words
  import opened RingArithmetic
  import opened RingMemory

  /** dataSize: the power of two `Create` chose; sampleSize: the fixed size of every sample;
      stride: what one record takes, header and padding included. */
  datatype Config = Config(dataSize: nat, sampleSize: nat, stride: nat)

  // The whole double mapping fits the address space, and a record size fits a word.
  ghost predicate ValidConfig(c: Config) {
    && PowerInRange(c.dataSize)
    && c.sampleSize + HEADER_SIZE + ALIGNMENT <= WORD
    && c.sampleSize + HEADER_SIZE <= c.stride < c.sampleSize + HEADER_SIZE + ALIGNMENT
    && c.stride % ALIGNMENT == 0
  }

  ghost predicate PowerInRange(d: nat)
    ensures PowerInRange(d) ==> d > 0
  {
    exists k: nat :: 3 <= k <= 62 && d == Pow2(k)
  }

  datatype Core = Core(mem: Memory, writerPos: nat, readerPos: nat, interPos: nat)

  ghost predicate ValidCore(c: Config, core: Core) {
    ValidConfig(c) && |core.mem| == c.dataSize
  }

  lemma EightIsPow2()
    ensures IsPow2(ALIGNMENT)
  {
    Pow2Values();
  }

  // The stride is what rounding a sample with its header up to the alignment gives.
  lemma StrideIsAlignUp(c: Config)
    requires ValidConfig(c)
    ensures IsPow2(ALIGNMENT) && AlignUp(c.sampleSize + HEADER_SIZE, ALIGNMENT) == c.stride
  {
    EightIsPow2();
    OneMultiple(c.sampleSize + HEADER_SIZE, AlignUp(c.sampleSize + HEADER_SIZE, ALIGNMENT), c.stride);
  }

  // Only one multiple of the alignment lies within that distance.
  lemma OneMultiple(x: nat, a: nat, b: nat)
    requires a % ALIGNMENT == 0 && b % ALIGNMENT == 0 && x <= a < x + ALIGNMENT && x <= b < x + ALIGNMENT
    ensures a == b
  {
  }

  // The address of a position in the data area.
  function Linear(c: Config, pos: nat): nat
    requires ValidConfig(c)
  {
    pos % c.dataSize
  }

  // Masking with the size less one finds that address.
  lemma MaskIsLinear(c: Config, pos: nat)
    requires ValidConfig(c)
    ensures And(pos, c.dataSize - 1) == Linear(c, pos)
  {
    var k: nat :| 3 <= k <= 62 && c.dataSize == Pow2(k);
    AndMask(pos, k);
  }

  // --- Reserve ---

  predicate HasRoom(c: Config, core: Core)
    requires ValidConfig(c)
  {
    !(c.dataSize - 1 < core.writerPos + c.stride - core.readerPos)
  }

  function StoreHeader(c: Config, core: Core): (r: Core)
    requires ValidCore(c, core)
    ensures ValidCore(c, r)
  {
    core.(mem := WriteAt(core.mem, Linear(c, core.writerPos), ToBytes(Or(c.sampleSize, RESERVED_BIT), HEADER_SIZE)))
  }

  function Publish(c: Config, core: Core): (r: Core)
    requires ValidCore(c, core)
    ensures ValidCore(c, r)
  {
    core.(writerPos := core.writerPos + c.stride)
  }

  // --- Commit and Discard: `hdr` is the header just before the buffer ---

  function HeaderAt(core: Core, at: nat): nat
    requires |core.mem| > 0
  {
    FromBytes(ReadAt(core.mem, at, HEADER_SIZE))
  }

  function SettledWord(w: nat, discard: bool): nat {
    var cleared := Xor(w, RESERVED_BIT);
    if discard then Or(cleared, DISCARD_BIT) else cleared
  }

  function Settle(c: Config, core: Core, hdr: nat, discard: bool): (r: Core)
    requires ValidCore(c, core)
    ensures ValidCore(c, r)
  {
    core.(mem := WriteAt(core.mem, hdr, ToBytes(SettledWord(HeaderAt(core, hdr), discard), HEADER_SIZE)))
  }

  // --- Reader ---

  datatype Fetch = End | Skipped | Got(bytes: seq<Byte>)

  // One turn of the loop of GetNext.
  function NextRecord(c: Config, core: Core, tail: nat): (r: (Core, Fetch))
    requires ValidCore(c, core)
    ensures ValidCore(c, r.0) && r.0.mem == core.mem
    ensures r.1.End? ==> r.0 == core
  {
    var head := core.interPos;
    if head == tail then (core, End)
    else
      var sz := HeaderAt(core, Linear(c, head));
      if IsReserved(sz) then (core, End)
      else
        EightIsPow2();
        var step := AlignUp((AndNot(sz, DISCARD_BIT) + HEADER_SIZE) % WORD, ALIGNMENT);
        var core' := core.(interPos := head + step);
        if IsDiscarded(sz) then (core', Skipped)
        else (core', Got(ReadAt(core.mem, Linear(c, head) + HEADER_SIZE, sz)))
  }

  function CloseReader(c: Config, core: Core): (r: Core)
    requires ValidCore(c, core)
    ensures ValidCore(c, r)
  {
    if core.readerPos < core.interPos then core.(readerPos := core.interPos) else core
  }
}
