/** The word arithmetic the ring buffer is built on: rounding up, masks and record headers. */
module RingArithmetic {
  import opened Words

  const MAX_POWER := 0x8000_0000_0000_0000
  const RESERVED_BIT := 0x8000_0000_0000_0000
  const DISCARD_BIT := 0x4000_0000_0000_0000
  const HEADER_SIZE := 8
  const ALIGNMENT := 8

  ghost predicate IsPow2(p: nat) {
    exists k: nat :: k < 64 && p == Pow2(k)
  }

  // y with its low k bits set.
  function Fill(y: nat, k: nat): nat {
    if k == 0 then y else 2 * Fill(y / 2, k - 1) + 1
  }

  lemma {:induction false} FillBit(y: nat, k: nat, i: nat)
    ensures Bit(Fill(y, k), i) == (Bit(y, i) || i < k)
    decreases k
  {
    if k > 0 && i > 0 {
      assert Fill(y, k) / 2 == Fill(y / 2, k - 1);
      FillBit(y / 2, k - 1, i - 1);
    }
  }

  // Setting the low k bits rounds down to a multiple of 2^k and adds 2^k - 1.
  lemma {:induction false} FillValue(y: nat, k: nat) returns (q: nat, r: nat)
    ensures r < Pow2(k) && y == q * Pow2(k) + r && Fill(y, k) == q * Pow2(k) + Pow2(k) - 1
    decreases k
  {
    if k == 0 {
      q, r := y, 0;
    } else {
      q, r := FillValue(y / 2, k - 1);
      MulSwap(q, Pow2(k - 1));
      r := 2 * r + y % 2;
    }
  }

  lemma FillLowBits(y: nat, k: nat, n: nat)
    requires k <= n && y < Pow2(n) && Fill(y, k) < Pow2(n)
    ensures Or(y, Pow2(k) - 1) == Fill(y, k)
  {
    forall i: nat ensures Bit(Fill(y, k), i) == (Bit(y, i) || Bit(Pow2(k) - 1, i)) {
      FillBit(y, k, i);
      OnesBit(k, i);
    }
    if k < n { Pow2Mono(k, n); }
    BitwiseIs((p: bool, q: bool) => p || q, y, Pow2(k) - 1, Fill(y, k), n);
  }

  lemma MulMono(a: int, b: int, m: int)
    requires a <= b && m >= 0
    ensures a * m <= b * m
  {
    assert (b - a) * m >= 0;
    assert (b - a) * m == b * m - a * m;
  }

  /** x rounded up to the next multiple of pow2; 0 when that does not fit in 64 bits. */
  function AlignUp(x: nat, pow2: nat): (r: nat)
    requires x < WORD && IsPow2(pow2)
    ensures r < WORD
    ensures x <= WORD - pow2 ==> r % pow2 == 0 && x <= r < x + pow2
    ensures x > WORD - pow2 ==> r == 0
  {
    var r := (Or((x - 1) % WORD, pow2 - 1) + 1) % WORD;
    assert AlignUpCorrect(x, pow2, r) by { AlignUpProof(x, pow2, (x - 1) % WORD); }
    r
  }

  ghost predicate AlignUpCorrect(x: nat, pow2: nat, r: nat) {
    && r < WORD
    && (pow2 > 0 && x <= WORD - pow2 ==> r % pow2 == 0 && x <= r < x + pow2)
    && (x > WORD - pow2 ==> r == 0)
  }

  lemma AlignUpProof(x: nat, pow2: nat, y: nat)
    requires x < WORD && IsPow2(pow2) && y == (x - 1) % WORD
    ensures AlignUpCorrect(x, pow2, (Or(y, pow2 - 1) + 1) % WORD)
  {
    var k: nat :| k < 64 && pow2 == Pow2(k);
    FillRoundsUp(x, y, k);
    FillLowWord(y, k);
  }

  lemma FillLowWord(y: nat, k: nat)
    requires y < WORD && k < 64 && Fill(y, k) < WORD
    ensures Or(y, Pow2(k) - 1) == Fill(y, k)
  {
    Pow2Values();
    FillLowBits(y, k, 64);
  }

  lemma {:induction false} FillRoundsUp(x: nat, y: nat, k: nat)
    requires x < WORD && k < 64 && y == (if x == 0 then WORD - 1 else x - 1)
    ensures Fill(y, k) < WORD && AlignUpCorrect(x, Pow2(k), (Fill(y, k) + 1) % WORD)
  {
    var q, r := FillValue(y, k);
    WordSplits(k);
    RoundUp(x, y, q, r, Pow2(k), Pow2(64 - k), Fill(y, k));
  }

  lemma WordSplits(k: nat)
    requires k < 64
    ensures WORD == Pow2(64 - k) * Pow2(k)
  {
    Pow2Add(64 - k, k);
    Pow2Values();
  }

  lemma RoundUp(x: nat, y: nat, q: nat, r: nat, d: nat, c: nat, z: nat)
    requires d > 0 && WORD == c * d && x < WORD
    requires y == (if x == 0 then WORD - 1 else x - 1) && y == q * d + r && r < d
    requires z == q * d + d - 1
    ensures z < WORD && AlignUpCorrect(x, d, (z + 1) % WORD)
  {
    if c <= q { MulMono(c, q, d); }
    MulMono(q + 1, c, d);
    assert z + 1 == (q + 1) * d <= WORD;
    if q + 1 < c {
      TwoMore(q, c, d);
      DivUnique(z + 1, d, q + 1, 0);
      RoundedUp(x, y, r, d, z);
    } else {
      WrappedUp(x, y, r, d, z);
    }
  }

  // A multiple of d below the last one.
  lemma RoundedUp(x: nat, y: nat, r: nat, d: nat, z: nat)
    requires d > 0 && x < WORD && r < d && y == (if x == 0 then WORD - 1 else x - 1) && z == y - r + d - 1
    requires (z + 1) % d == 0 && z + 1 + d <= WORD
    ensures AlignUpCorrect(x, d, (z + 1) % WORD)
  {
    assert (z + 1) % WORD == z + 1;
  }

  // The last multiple of d wraps to 0.
  lemma WrappedUp(x: nat, y: nat, r: nat, d: nat, z: nat)
    requires d > 0 && x < WORD && r < d && y == (if x == 0 then WORD - 1 else x - 1) && z == y - r + d - 1
    requires z + 1 == WORD
    ensures AlignUpCorrect(x, d, (z + 1) % WORD)
  {
    assert (z + 1) % WORD == 0;
    assert 0 % d == 0;
  }

  lemma TwoMore(q: nat, c: nat, d: nat)
    requires q + 2 <= c
    ensures q * d + 2 * d <= c * d
  {
    MulMono(q + 2, c, d);
  }

  ghost predicate LeastPow2(r: nat, size: nat) {
    IsPow2(r) && size <= r && forall k: nat :: size <= Pow2(k) ==> r <= Pow2(k)
  }

  function OrShift(x: nat, s: nat): nat {
    Or(x, Shr(x, s))
  }

  /** The least power of two that is at least size; 0 when that does not fit in 64 bits. */
  method NextPowerOfTwo(size: nat) returns (r: nat)
    requires size < WORD
    ensures size <= MAX_POWER ==> LeastPow2(r, size)
    ensures size > MAX_POWER ==> r == 0
  {
    if size == 0 {
      r := 1;
      assert LeastPow2(r, 0) by { assert Pow2(0) == 1; }
      return;
    }
    var x := size - 1;
    ghost var len := BitLength(x);
    x := OrShiftOnce(x, 1, len);
    x := OrShiftOnce(x, 2, len);
    x := OrShiftOnce(x, 4, len);
    x := OrShiftOnce(x, 8, len);
    x := OrShiftOnce(x, 16, len);
    x := OrShiftOnce(x, 32, len);
    AllOnes(x, len);
    NextPowerCases(size, x, len);
    r := (x + 1) % WORD;
  }

  // size |= size >> s
  method OrShiftOnce(x: nat, s: nat, ghost len: nat) returns (r: nat)
    requires TopOnes(x, len, s)
    ensures r == OrShift(x, s) && TopOnes(r, len, 2 * s)
  {
    r := Or(x, Shr(x, s));
    OrShiftTop(x, len, s);
  }

  // x has its top bit just below len, and its top m bits are all ones.
  ghost predicate TopOnes(x: nat, len: nat, m: nat) {
    && len <= 64
    && x < Pow2(len)
    && forall i: nat :: i < len && len - m <= i ==> Bit(x, i)
  }

  lemma OrShiftTop(x: nat, len: nat, s: nat)
    requires TopOnes(x, len, s)
    ensures TopOnes(OrShift(x, s), len, 2 * s)
  {
    var y := Shr(x, s);
    var r := OrShift(x, s);
    forall i: nat | i < len && len - 2 * s <= i ensures Bit(r, i) {
      BitwiseBit((p: bool, q: bool) => p || q, x, y, i);
      ShiftBit(x, s, i);
    }
    BitwiseBelow((p: bool, q: bool) => p || q, x, y, len);
  }

  lemma {:induction false} TopBit(x: nat, n: nat) returns (len: nat)
    requires 0 < x < Pow2(n)
    ensures 1 <= len <= n && Pow2(len - 1) <= x < Pow2(len) && Bit(x, len - 1)
  {
    if x == 1 { len := 1; }
    else {
      len := TopBit(x / 2, n - 1);
      len := len + 1;
    }
  }

  lemma BitLength(x: nat) returns (len: nat)
    requires x < WORD
    ensures len <= 64 && (len > 0 ==> Pow2(len - 1) <= x) && TopOnes(x, len, 1)
  {
    if x == 0 {
      len := 0;
    } else {
      Pow2Values();
      len := TopBit(x, 64);
    }
  }

  lemma AllOnes(x: nat, len: nat)
    requires TopOnes(x, len, 64)
    ensures x == Pow2(len) - 1
  {
    forall i: nat | i < len ensures Bit(x, i) == Bit(Pow2(len) - 1, i) { OnesBit(len, i); }
    SameBits(x, Pow2(len) - 1, len);
  }

  lemma NextPowerCases(size: nat, z: nat, len: nat)
    requires len <= 64 && (len > 0 ==> Pow2(len - 1) < size) && 0 < size <= Pow2(len) && z == Pow2(len) - 1
    ensures size <= MAX_POWER ==> LeastPow2((z + 1) % WORD, size)
    ensures size > MAX_POWER ==> (z + 1) % WORD == 0
  {
    PowerWraps(len);
    if len < 64 { NextPowerIsLeast(size, len); }
  }

  // The power as a word, and which of them hold a size beyond the last.
  lemma PowerWraps(len: nat)
    requires len <= 64
    ensures Pow2(len) % WORD == (if len < 64 then Pow2(len) else 0)
    ensures len < 64 ==> Pow2(len) <= MAX_POWER
    ensures len == 64 ==> Pow2(len - 1) == MAX_POWER
  {
    Pow2Values();
    if len < 63 { Pow2Mono(len, 63); }
  }

  lemma NextPowerIsLeast(size: nat, len: nat)
    requires len < 64 && (len > 0 ==> Pow2(len - 1) < size) && 0 < size <= Pow2(len)
    ensures LeastPow2(Pow2(len), size)
  {
    forall k: nat | size <= Pow2(k) ensures Pow2(len) <= Pow2(k) {
      if k < len - 1 { Pow2Mono(k, len - 1); }
      if len < k { Pow2Mono(len, k); }
    }
  }

  // --- Record headers: the sample size with two flag bits on top. ---

  predicate IsReserved(w: nat) { And(w, RESERVED_BIT) != 0 }

  predicate IsDiscarded(w: nat) { And(w, DISCARD_BIT) != 0 }

  lemma FlagBit(w: nat, k: nat, n: nat)
    requires k < n && w < Pow2(n)
    ensures (And(w, Pow2(k)) != 0) == Bit(w, k)
  {
    BitwiseBit((p: bool, q: bool) => p && q, w, Pow2(k), k);
    PowBit(k, k);
    ZeroBit(k);
    if !Bit(w, k) {
      Pow2Mono(k, n);
      forall i: nat ensures Bit(0, i) == (Bit(w, i) && Bit(Pow2(k), i)) {
        PowBit(k, i);
        ZeroBit(i);
      }
      BitwiseIs((p: bool, q: bool) => p && q, w, Pow2(k), 0, n);
    }
  }

  // The reserved mark goes on by an or and comes off by an exclusive or.
  lemma ReservedWord(size: nat)
    requires size < DISCARD_BIT
    ensures Or(size, RESERVED_BIT) == size + RESERVED_BIT
    ensures Xor(size + RESERVED_BIT, RESERVED_BIT) == size
  {
    Pow2Values();
    HeaderReserve(size);
  }

  // The discard mark goes on by an or, and the reader masks it out.
  lemma DiscardedWord(size: nat)
    requires size < DISCARD_BIT
    ensures Or(size, DISCARD_BIT) == size + DISCARD_BIT
    ensures AndNot(size, DISCARD_BIT) == size
    ensures AndNot(size + DISCARD_BIT, DISCARD_BIT) == size
  {
    Pow2Values();
    HeaderDiscard(size);
  }

  // The flag tests tell the three header words apart.
  lemma FlagTests(size: nat)
    requires size < DISCARD_BIT
    ensures IsReserved(size + RESERVED_BIT) && !IsReserved(size) && !IsReserved(size + DISCARD_BIT)
    ensures IsDiscarded(size + DISCARD_BIT) && !IsDiscarded(size)
  {
    Pow2Values();
    HeaderFlags(size);
  }

  lemma HeaderReserve(size: nat)
    requires size < Pow2(62)
    ensures Or(size, Pow2(63)) == size + Pow2(63)
    ensures Xor(size + Pow2(63), Pow2(63)) == size
  {
    Pow2Mono(62, 63);
    SetBit(size, 63);
    FlipBit(size, 63);
  }

  lemma HeaderDiscard(size: nat)
    requires size < Pow2(62)
    ensures Or(size, Pow2(62)) == size + Pow2(62)
    ensures AndNot(size, Pow2(62)) == size
    ensures AndNot(size + Pow2(62), Pow2(62)) == size
  {
    SetBit(size, 62);
    ClearBit(size, size, 62);
    ClearBit(size, size + Pow2(62), 62);
  }

  lemma SetBit(size: nat, k: nat)
    requires size < Pow2(k)
    ensures Or(size, Pow2(k)) == size + Pow2(k)
  {
    forall i: nat ensures Bit(size + Pow2(k), i) == (Bit(size, i) || Bit(Pow2(k), i)) {
      PowBit(k, i); AddPowBit(size, k, i);
    }
    BitwiseIs((p: bool, q: bool) => p || q, size, Pow2(k), size + Pow2(k), k + 1);
  }

  lemma FlipBit(size: nat, k: nat)
    requires size < Pow2(k)
    ensures Xor(size + Pow2(k), Pow2(k)) == size
  {
    var w := size + Pow2(k);
    forall i: nat ensures Bit(size, i) == (Bit(w, i) != Bit(Pow2(k), i)) {
      PowBit(k, i); AddPowBit(size, k, i);
      if i == k { HighBit(size, k, i); }
    }
    BitwiseIs((p: bool, q: bool) => p != q, w, Pow2(k), size, k + 1);
  }

  lemma ClearBit(size: nat, w: nat, k: nat)
    requires size < Pow2(k) && (w == size || w == size + Pow2(k))
    ensures AndNot(w, Pow2(k)) == size
  {
    forall i: nat ensures Bit(size, i) == (Bit(w, i) && !Bit(Pow2(k), i)) {
      PowBit(k, i); AddPowBit(size, k, i);
      if i == k { HighBit(size, k, i); }
    }
    BitwiseIs((p: bool, q: bool) => p && !q, w, Pow2(k), size, k + 1);
  }

  lemma HeaderFlags(size: nat)
    requires size < Pow2(62)
    ensures And(size + Pow2(63), Pow2(63)) != 0 && And(size, Pow2(63)) == 0
    ensures And(size + Pow2(62), Pow2(63)) == 0
    ensures And(size + Pow2(62), Pow2(62)) != 0 && And(size, Pow2(62)) == 0
  {
    LowFlag(size, 62);
    HighFlag(size, 62, 63);
  }

  lemma LowFlag(size: nat, low: nat)
    requires size < Pow2(low)
    ensures And(size + Pow2(low), Pow2(low)) != 0 && And(size, Pow2(low)) == 0
  {
    FlagAbsent(size, low, low);
    FlagSet(size, low);
  }

  lemma HighFlag(size: nat, low: nat, high: nat)
    requires size < Pow2(low) && high == low + 1
    ensures And(size + Pow2(high), Pow2(high)) != 0 && And(size, Pow2(high)) == 0
    ensures And(size + Pow2(low), Pow2(high)) == 0
  {
    FlagAbsent(size, low, high);
    FlagAbsent(size + Pow2(low), high, high);
    Pow2Mono(low, high);
    FlagSet(size, high);
  }

  lemma FlagAbsent(w: nat, n: nat, k: nat)
    requires w < Pow2(n) && n <= k
    ensures And(w, Pow2(k)) == 0
  {
    HighBit(w, n, k);
    if n < k { Pow2Mono(n, k); }
    FlagBit(w, k, k + 1);
  }

  lemma FlagSet(w: nat, k: nat)
    requires w < Pow2(k)
    ensures And(w + Pow2(k), Pow2(k)) != 0
  {
    AddPowBit(w, k, k);
    FlagBit(w + Pow2(k), k, k + 1);
  }

  // --- The double mapping. ---

  /** What a virtual address of the reserved range is backed by. */
  datatype Backing = Anonymous | File(offset: nat)

  /** mmap with MAP_FIXED of the file, from its start, at address `at`. */
  function MapFile(space: seq<Backing>, at: nat, len: nat): (r: seq<Backing>)
    requires at + len <= |space|
    ensures |r| == |space|
  {
    seq(|space|, a requires 0 <= a < |space| => if at <= a < at + len then File(a - at) else space[a])
  }

  /** The address space `Create` leaves behind: reserve, map the second half, map the first half. */
  function MappedSpace(dataSize: nat, metaSize: nat): (r: seq<Backing>)
    ensures |r| == 2 * dataSize + metaSize
  {
    var rbSize := dataSize + metaSize;
    var total := 2 * rbSize - metaSize;
    var space := seq(total, _ => Anonymous);
    MapFile(MapFile(space, dataSize, rbSize), 0, rbSize)
  }

  /** Byte i of the data area, for every i below twice its size, is the file byte of i modulo that
      size, and no data address reaches the metadata page. */
  lemma DoubleMapping(dataSize: nat, metaSize: nat, i: nat)
    requires i < 2 * dataSize
    ensures MappedSpace(dataSize, metaSize)[metaSize + i] == File(metaSize + i % dataSize)
    ensures MappedSpace(dataSize, metaSize)[metaSize + i] == MappedSpace(dataSize, metaSize)[metaSize + i % dataSize]
  {
    if i < dataSize { DivUnique(i, dataSize, 0, i); }
    else { DivUnique(i, dataSize, 1, i - dataSize); }
  }
}
