/** The ring buffer object, operation by operation, tied to the functions the protocol is made of. */
module RingBuffer {
  import opened Collections
  import opened Words
  import opened RingArithmetic
  import opened RingMemory
  import opened RingCore
  import opened RingProtocol
  import opened RingSafety

  // The first record from k on, before limit, that is not discarded.
  function FirstKept(log: seq<Record>, k: nat, limit: nat): (r: nat)
    requires k <= limit <= |log|
    ensures k <= r <= limit
    ensures forall i :: k <= i < r ==> log[i].status.Discarded?
    ensures r < limit ==> !log[r].status.Discarded?
    decreases limit - k
  {
    if k == limit || !log[k].status.Discarded? then k else FirstKept(log, k + 1, limit)
  }

  // The reader has skipped from the state s to the state t.
  ghost predicate Reading(c: Config, s: State, t: State, tail: nat) {
    && Inv(c, t) && t.tail == Some(tail) && t.log == s.log && t.tailIndex == s.tailIndex
    && s.passed <= t.passed <= s.tailIndex <= |s.log| && t.core == s.core.(interPos := Pos(c, t.passed))
    && FirstKept(s.log, t.passed, s.tailIndex) == FirstKept(s.log, s.passed, s.tailIndex)
  }

  lemma ReadingTurn(c: Config, s: State, t: State, tail: nat)
    requires Reading(c, s, t, tail)
    ensures var (core', got) := NextRecord(c, t.core, tail);
            var k := FirstKept(s.log, s.passed, s.tailIndex);
            && (got.End? ==>
                  !(k < s.tailIndex && s.log[k].status.Committed?) && t.core == s.core.(interPos := Pos(c, k)))
            && (got.Got? ==> k < s.tailIndex && s.log[k].status.Committed? && got.bytes == s.log[k].payload
                             && core' == s.core.(interPos := Pos(c, k + 1)))
            && (got.Skipped? ==> t.passed < s.tailIndex && Reading(c, s, Apply(c, t, ReadNext), tail)
                                 && Apply(c, t, ReadNext).core == core' && Apply(c, t, ReadNext).passed == t.passed + 1)
  {
    NextRecordMeaning(c, t);
    if NextRecord(c, t.core, tail).1.Skipped? { SkippedTurn(c, s, t, tail); }
  }

  lemma SkippedTurn(c: Config, s: State, t: State, tail: nat)
    requires Reading(c, s, t, tail) && NextRecord(c, t.core, tail).1.Skipped?
    ensures var t' := Apply(c, t, ReadNext);
            && t.passed < s.tailIndex && Reading(c, s, t', tail) && t'.passed == t.passed + 1
            && t'.core == NextRecord(c, t.core, tail).0
  {
    NextRecordMeaning(c, t);
    ReadNextStep(c, t);
  }

  // A sample with its header, rounded up, fits a word.
  predicate SampleFits(sampleSize: nat) {
    sampleSize + HEADER_SIZE + ALIGNMENT <= WORD
  }

  class Ring {
    const c: Config
    const data: array<Byte>
    var writerPos: nat
    var readerPos: nat
    var interPos: nat

    ghost predicate Valid()
      reads this, data
    {
      ValidConfig(c) && data.Length == c.dataSize > 0
    }

    ghost function View(): (r: Core)
      requires Valid()
      reads this, data
      ensures ValidCore(c, r)
    {
      Core(data[..], writerPos, readerPos, interPos)
    }

    // The data area is the least power of two that holds a page and the requested size.
    constructor (requestedSize: nat, pageSize: nat, sampleSize: nat)
      requires 8 <= pageSize <= 0x4000_0000_0000_0000 && requestedSize <= 0x4000_0000_0000_0000
      requires sampleSize < WORD
      ensures c.sampleSize == sampleSize && fresh(data) && data.Length == c.dataSize
      ensures writerPos == readerPos == interPos == 0
      ensures LeastPow2(c.dataSize, if requestedSize < pageSize then pageSize else requestedSize)
      ensures SampleFits(sampleSize) ==>
                Valid() && Inv(c, Init(View().mem)) && View() == Init(View().mem).core
    {
      var wanted := if requestedSize < pageSize then pageSize else requestedSize;
      var dataSize := NextPowerOfTwo(wanted);
      EightIsPow2();
      var stride := AlignUp((sampleSize + HEADER_SIZE) % WORD, ALIGNMENT);
      MadeConfig(wanted, dataSize, sampleSize, stride);
      c := Config(dataSize, sampleSize, stride);
      data := new Byte[dataSize];
      writerPos, readerPos, interPos := 0, 0, 0;
      new;
      if SampleFits(sampleSize) { InitInv(c, data[..]); }
    }

    /** Reserve, holding the lock: room, header, publish. None when the record does not fit. */
    method Reserve() returns (buf: Option<nat>)
      requires Valid()
      modifies this, data
      ensures Valid()
      ensures buf.Some? == old(HasRoom(c, View()))
      ensures buf.Some? ==>
              View() == old(Publish(c, StoreHeader(c, View()))) && buf.value == Linear(c, old(writerPos)) + HEADER_SIZE
      ensures buf.None? ==> View() == old(View())
    {
      HeaderFits(c);
      StrideIsAlignUp(c);
      MaskIsLinear(c, writerPos);
      var n2 := AlignUp(c.sampleSize + HEADER_SIZE, ALIGNMENT);
      var newWriterPos := writerPos + n2;
      if c.dataSize - 1 < newWriterPos - readerPos {
        return None;
      }
      var hdr := And(writerPos, c.dataSize - 1);
      Store(hdr, ToBytes(Or(c.sampleSize, RESERVED_BIT), HEADER_SIZE));
      writerPos := newWriterPos;
      return Some(hdr + HEADER_SIZE);
    }

    method Commit(buf: nat)
      requires Valid() && buf >= HEADER_SIZE
      modifies data
      ensures Valid() && View() == old(Settle(c, View(), buf - HEADER_SIZE, false))
    {
      HeaderFits(c);
      var word := FromBytes(ReadAt(data[..], buf - HEADER_SIZE, HEADER_SIZE));
      Store(buf - HEADER_SIZE, ToBytes(Xor(word, RESERVED_BIT), HEADER_SIZE));
    }

    method Discard(buf: nat)
      requires Valid() && buf >= HEADER_SIZE
      modifies data
      ensures Valid() && View() == old(Settle(c, View(), buf - HEADER_SIZE, true))
    {
      HeaderFits(c);
      var word := FromBytes(ReadAt(data[..], buf - HEADER_SIZE, HEADER_SIZE));
      var cleared := Xor(word, RESERVED_BIT);
      Store(buf - HEADER_SIZE, ToBytes(Or(cleared, DISCARD_BIT), HEADER_SIZE));
    }

    /** A reader's constructor: its session ends where the writers are, so it covers every record reserved so far
        that no earlier session has passed. */
    method OpenReader(ghost s: State) returns (tail: nat)
      requires Valid() && Inv(c, s) && s.core == View() && s.tail.None?
      ensures tail == writerPos && interPos <= tail && interPos == readerPos
      ensures var r := Apply(c, s, RingProtocol.OpenReader);
              && Inv(c, r) && r.core == View() && r.log == s.log
              && r.tail == Some(tail) && r.tailIndex == |s.log| && r.passed == s.passed
    {
      tail := writerPos;
      StepInv(c, s, RingProtocol.OpenReader);
      PosOrder(c, s.passed, |s.log|);
    }

    /** How many records of the session the reader has not passed. */
    method AvailableSamples(tail: nat, ghost s: State) returns (n: nat)
      requires Valid() && Inv(c, s) && s.core == View() && s.tail == Some(tail)
      ensures s.passed <= s.tailIndex && n == s.tailIndex - s.passed
    {
      EightIsPow2();
      StrideIsAlignUp(c);
      CountStrides(s.passed, s.tailIndex, c.stride);
      var n2 := AlignUp(HEADER_SIZE + c.sampleSize, ALIGNMENT);
      PosOrder(c, s.passed, s.tailIndex);
      n := (tail - interPos) / n2;
    }

    /** GetNext of a reader whose session ends at `tail`: it skips discarded records, stops at a
        reserved one or at the end of the session, and otherwise hands out the next payload. */
    method GetNext(tail: nat, ghost s: State) returns (bytes: Option<seq<Byte>>)
      requires Valid() && Inv(c, s) && s.core == View() && s.tail == Some(tail)
      modifies this
      ensures Valid() && data[..] == old(data[..])
      ensures var k := FirstKept(s.log, s.passed, s.tailIndex);
              if k < s.tailIndex && s.log[k].status.Committed?
              then bytes == Some(s.log[k].payload) && View() == s.core.(interPos := Pos(c, k + 1))
              else bytes == None && View() == s.core.(interPos := Pos(c, k))
    {
      ghost var t := s;
      while true
        invariant Valid() && Reading(c, s, t, tail) && t.core == View() && data[..] == old(data[..])
        decreases s.tailIndex - t.passed
      {
        ReadingTurn(c, s, t, tail);
        var got := TakeNext(tail);
        if got.End? {
          return None;
        }
        if got.Got? {
          return Some(got.bytes);
        }
        t := Apply(c, t, ReadNext);
      }
    }

    // One turn of the loop of GetNext.
    method TakeNext(tail: nat) returns (got: Fetch)
      requires Valid()
      modifies this
      ensures Valid() && data[..] == old(data[..])
      ensures View() == NextRecord(c, old(View()), tail).0 && got == NextRecord(c, old(View()), tail).1
    {
      var head := interPos;
      if head == tail {
        return End;
      }
      MaskIsLinear(c, head);
      var hdr := And(head, c.dataSize - 1);
      var sz := FromBytes(ReadAt(data[..], hdr, HEADER_SIZE));
      if IsReserved(sz) {
        return End;
      }
      EightIsPow2();
      interPos := head + AlignUp((AndNot(sz, DISCARD_BIT) + HEADER_SIZE) % WORD, ALIGNMENT);
      if IsDiscarded(sz) {
        return Skipped;
      }
      return Got(ReadAt(data[..], hdr + HEADER_SIZE, sz));
    }

    /** The reader's destructor publishes how far it got. */
    method DropReader()
      requires Valid()
      modifies this
      ensures Valid() && View() == old(CloseReader(c, View()))
    {
      if readerPos < interPos {
        readerPos := interPos;
      }
    }

    // Stores bytes through the double mapping.
    method Store(p: nat, bs: seq<Byte>)
      requires Valid() && |bs| <= c.dataSize
      modifies data
      ensures Valid() && data[..] == WriteAt(old(data[..]), p, bs)
    {
      var j := 0;
      WriteNothing(data[..], p);
      assert bs[..0] == [];
      while j < |bs|
        invariant j <= |bs| && Valid() && data[..] == WriteAt(old(data[..]), p, bs[..j])
      {
        WriteOneMore(old(data[..]), p, bs, j);
        data[(p + j) % data.Length] := bs[j];
        j := j + 1;
      }
      assert bs[..|bs|] == bs;
    }
  }

  lemma HeaderFits(c: Config)
    requires ValidConfig(c)
    ensures HEADER_SIZE <= c.dataSize
  {
    var k: nat :| 3 <= k <= 62 && c.dataSize == Pow2(k);
    Pow2Values();
    if k > 3 { Pow2Mono(3, k); }
  }

  lemma WriteNothing(mem: Memory, p: nat)
    requires |mem| > 0
    ensures WriteAt(mem, p, []) == mem
  {
  }

  // The configuration is sound if a sample fits.
  lemma MadeConfig(wanted: nat, dataSize: nat, sampleSize: nat, stride: nat)
    requires 8 <= wanted <= 0x4000_0000_0000_0000 && LeastPow2(dataSize, wanted) && sampleSize < WORD
    requires IsPow2(ALIGNMENT) && stride == AlignUp((sampleSize + HEADER_SIZE) % WORD, ALIGNMENT)
    ensures dataSize > 0 && (SampleFits(sampleSize) ==> ValidConfig(Config(dataSize, sampleSize, stride)))
  {
    ExponentInRange(wanted, dataSize);
  }

  lemma ExponentInRange(size: nat, r: nat)
    requires 8 <= size <= 0x4000_0000_0000_0000 && LeastPow2(r, size)
    ensures PowerInRange(r)
  {
    var k: nat :| k < 64 && r == Pow2(k);
    Pow2Values();
    assert size <= Pow2(62);
    if k < 3 { Pow2Mono(k, 3); }
    assert k != 63;
  }

  /** What creating a buffer comes to: none, one without a data area, or a ring. */
  datatype Creation = Refused | NoData | Made(ring: Ring)

  /** Create, for every size a word can hold. The operating system has the last word on the file and the
      mappings, and refuses a file whose size is negative as a signed word. A size above 2^63 has no power
      of two: the file then holds the metadata page alone. */
  method Create(requestedSize: nat, pageSize: nat, sampleSize: nat, mapped: bool) returns (r: Creation)
    requires requestedSize < WORD && 8 <= pageSize < 0x4000_0000_0000_0000
    requires sampleSize < WORD
    ensures var wanted := if requestedSize < pageSize then pageSize else requestedSize;
            && (r.Made? <==> mapped && wanted <= 0x4000_0000_0000_0000)
            && (r.NoData? <==> mapped && MAX_POWER < wanted)
            && (r.Made? ==> LeastPow2(r.ring.c.dataSize, wanted))
    ensures r.Made? ==>
              && fresh(r.ring) && fresh(r.ring.data) && r.ring.c.sampleSize == sampleSize
              && r.ring.writerPos == r.ring.readerPos == r.ring.interPos == 0
    ensures r.Made? && SampleFits(sampleSize) ==>
              && r.ring.Valid()
              && Inv(r.ring.c, Init(r.ring.View().mem)) && r.ring.View() == Init(r.ring.View().mem).core
  {
    var wanted := if requestedSize < pageSize then pageSize else requestedSize;
    var dataSize := NextPowerOfTwo(wanted);
    var rbSize := (dataSize + pageSize) % WORD;
    FileSize(wanted, dataSize, pageSize);
    if rbSize >= MAX_POWER || !mapped {
      return Refused;
    }
    if dataSize == 0 {
      return NoData;
    }
    var ring := new Ring(requestedSize, pageSize, sampleSize);
    return Made(ring);
  }

  // Which sizes give the file a size that is not negative.
  lemma FileSize(wanted: nat, dataSize: nat, metaSize: nat)
    requires 0 < wanted < WORD && metaSize < 0x4000_0000_0000_0000
    requires wanted <= MAX_POWER ==> LeastPow2(dataSize, wanted)
    requires wanted > MAX_POWER ==> dataSize == 0
    ensures (dataSize + metaSize) % WORD < MAX_POWER <==> !(0x4000_0000_0000_0000 < wanted <= MAX_POWER)
    ensures dataSize == 0 <==> MAX_POWER < wanted
  {
    Pow2Values();
    if wanted <= 0x4000_0000_0000_0000 {
      assert wanted <= Pow2(62);
    } else if wanted <= MAX_POWER {
      var k: nat :| k < 64 && dataSize == Pow2(k);
      if k < 62 { Pow2Mono(k, 62); }
      assert k == 63;
    }
  }

  // --- The room test on words ---

  // The mask of a data size, and the source's test for room, where everything wraps.
  function MaskOf(dataSize: nat): nat {
    (dataSize - 1) % WORD
  }

  predicate Accepts(mask: nat, writerPos: nat, readerPos: nat, stride: nat) {
    !(mask < (writerPos + stride - readerPos) % WORD)
  }

  /** In every reachable state the test on words is the test of the protocol. */
  lemma AcceptsIsRoom(c: Config, s: State)
    requires Inv(c, s) && s.core.writerPos + c.stride < WORD
    ensures Accepts(MaskOf(c.dataSize), s.core.writerPos, s.core.readerPos, c.stride) <==> HasRoom(c, s.core)
  {
    DataSizeSmall(c);
    PosOrder(c, s.published, |s.log|);
    AcceptsBelow(c.dataSize, s.core.writerPos, s.core.readerPos, c.stride);
  }

  lemma DataSizeSmall(c: Config)
    requires ValidConfig(c)
    ensures 0 < c.dataSize < WORD
  {
    var k: nat :| 3 <= k <= 62 && c.dataSize == Pow2(k);
    if k < 62 { Pow2Mono(k, 62); }
    Pow2Values();
  }

  // Without a wrap the test compares numbers.
  lemma AcceptsBelow(dataSize: nat, w: nat, r: nat, n: nat)
    requires 0 < dataSize < WORD && r <= w && w + n < WORD
    ensures Accepts(MaskOf(dataSize), w, r, n) <==> w + n - r <= dataSize - 1
  {
  }

  /** What is accepted fits the data area exactly when there is one: a buffer made for more than 2^63 bytes has none,
      and accepts every reservation. */
  lemma AcceptedFitsExactly(wanted: nat, dataSize: nat)
    requires 0 < wanted < WORD && !(0x4000_0000_0000_0000 < wanted <= MAX_POWER)
    requires wanted <= MAX_POWER ==> LeastPow2(dataSize, wanted)
    requires wanted > MAX_POWER ==> dataSize == 0
    ensures (forall w: nat, r: nat, n: nat :: Accepts(MaskOf(dataSize), w, r, n) ==> (w + n - r) % WORD < dataSize)
            <==> wanted <= MAX_POWER
    ensures wanted > MAX_POWER ==> forall w: nat, r: nat, n: nat :: Accepts(MaskOf(dataSize), w, r, n)
  {
    if wanted <= MAX_POWER {
      Pow2Values();
      assert wanted <= Pow2(62);
      assert MaskOf(dataSize) == dataSize - 1;
    } else {
      assert MaskOf(dataSize) == WORD - 1;
      assert Accepts(MaskOf(dataSize), 0, 0, 0);
    }
  }
}
