/** 64-bit machine words as naturals: powers of two, bitwise operators defined bit by bit, and the
    little-endian bytes a word occupies in memory. */
module Words {

  const WORD := 0x1_0000_0000_0000_0000

  type Byte = x: int | 0 <= x < 256 witness 0

  function Pow2(k: nat): (r: nat)
    ensures r >= 1
  {
    if k == 0 then 1 else 2 * Pow2(k - 1)
  }

  lemma {:induction false} Pow2Add(a: nat, b: nat)
    ensures Pow2(a + b) == Pow2(a) * Pow2(b)
  {
    if a > 0 {
      Pow2Add(a - 1, b);
      calc {
        Pow2(a + b);
        2 * Pow2(a - 1 + b);
        2 * (Pow2(a - 1) * Pow2(b));
        (2 * Pow2(a - 1)) * Pow2(b);
      }
    }
  }

  lemma {:induction false} Pow2Mono(a: nat, b: nat)
    requires a < b
    ensures 2 * Pow2(a) <= Pow2(b)
  {
    if a + 1 < b { Pow2Mono(a, b - 1); }
  }

  lemma Pow2Values()
    ensures Pow2(3) == 8
    ensures Pow2(62) == 0x4000_0000_0000_0000
    ensures Pow2(63) == 0x8000_0000_0000_0000
    ensures Pow2(64) == WORD
  {
    Pow2Small();
    Pow2Add(32, 16); Pow2Add(48, 14);
  }

  lemma Pow2Small()
    ensures Pow2(16) == 0x10000 && Pow2(32) == 0x1_0000_0000
  {
    assert Pow2(8) == 256;
    Pow2Add(8, 8);
    Pow2Add(16, 16);
  }

  // Bit i of x.
  predicate Bit(x: nat, i: nat) {
    if i == 0 then x % 2 == 1 else Bit(x / 2, i - 1)
  }

  // The number whose i-th bit is f of the i-th bits of a and b.
  function Bitwise(f: (bool, bool) -> bool, a: nat, b: nat): nat
    requires !f(false, false)
    decreases a + b
  {
    if a == 0 && b == 0 then 0
    else 2 * Bitwise(f, a / 2, b / 2) + (if f(a % 2 == 1, b % 2 == 1) then 1 else 0)
  }

  function Or(a: nat, b: nat): nat { Bitwise((p: bool, q: bool) => p || q, a, b) }
  function Xor(a: nat, b: nat): nat { Bitwise((p: bool, q: bool) => p != q, a, b) }
  function And(a: nat, b: nat): nat { Bitwise((p: bool, q: bool) => p && q, a, b) }
  // a & ~b
  function AndNot(a: nat, b: nat): nat { Bitwise((p: bool, q: bool) => p && !q, a, b) }

  lemma {:induction false} BitwiseBit(f: (bool, bool) -> bool, a: nat, b: nat, i: nat)
    requires !f(false, false)
    ensures Bit(Bitwise(f, a, b), i) == f(Bit(a, i), Bit(b, i))
    decreases a + b
  {
    var r := Bitwise(f, a, b);
    if a == 0 && b == 0 {
      ZeroBit(i);
    } else {
      var q, bit := Bitwise(f, a / 2, b / 2), if f(a % 2 == 1, b % 2 == 1) then 1 else 0;
      assert r == 2 * q + bit;
      if i > 0 {
        assert r / 2 == q;
        BitwiseBit(f, a / 2, b / 2, i - 1);
      }
    }
  }

  lemma {:induction false} BitwiseBelow(f: (bool, bool) -> bool, a: nat, b: nat, n: nat)
    requires !f(false, false) && a < Pow2(n) && b < Pow2(n)
    ensures Bitwise(f, a, b) < Pow2(n)
    decreases n
  {
    if n > 0 { BitwiseBelow(f, a / 2, b / 2, n - 1); }
  }

  // The number with the given bits is the bitwise combination.
  lemma BitwiseIs(f: (bool, bool) -> bool, a: nat, b: nat, c: nat, n: nat)
    requires !f(false, false) && a < Pow2(n) && b < Pow2(n) && c < Pow2(n)
    requires forall i: nat :: i < n ==> Bit(c, i) == f(Bit(a, i), Bit(b, i))
    ensures Bitwise(f, a, b) == c
  {
    BitwiseBelow(f, a, b, n);
    forall i: nat | i < n ensures Bit(Bitwise(f, a, b), i) == Bit(c, i) { BitwiseBit(f, a, b, i); }
    SameBits(Bitwise(f, a, b), c, n);
  }

  lemma {:induction false} ZeroBit(i: nat)
    ensures !Bit(0, i)
  {
    if i > 0 { ZeroBit(i - 1); }
  }

  lemma {:induction false} HighBit(x: nat, n: nat, i: nat)
    requires x < Pow2(n) && n <= i
    ensures !Bit(x, i)
    decreases n
  {
    if n == 0 { ZeroBit(i); } else { HighBit(x / 2, n - 1, i - 1); }
  }

  // Numbers below 2^n with the same low n bits are equal.
  lemma {:induction false} SameBits(x: nat, y: nat, n: nat)
    requires x < Pow2(n) && y < Pow2(n)
    requires forall i: nat :: i < n ==> Bit(x, i) == Bit(y, i)
    ensures x == y
    decreases n
  {
    if n > 0 {
      assert Bit(x, 0) == Bit(y, 0);
      forall i: nat | i < n - 1 ensures Bit(x / 2, i) == Bit(y / 2, i) {
        assert Bit(x, i + 1) == Bit(y, i + 1);
      }
      SameBits(x / 2, y / 2, n - 1);
    }
  }

  // x >> s
  function Shr(x: nat, s: nat): (r: nat)
    ensures r <= x
    decreases s
  {
    if s == 0 then x else Shr(x / 2, s - 1)
  }

  // Shifting right by s moves bit i + s to bit i.
  lemma {:induction false} ShiftBit(x: nat, s: nat, i: nat)
    ensures Bit(Shr(x, s), i) == Bit(x, i + s)
    decreases s
  {
    if s > 0 { ShiftBit(x / 2, s - 1, i); }
  }

  lemma MulSwap(q: int, d: int)
    ensures q * (2 * d) == 2 * (q * d)
  {
  }

  lemma DivUnique(x: int, d: int, q: int, r: int)
    requires 0 <= r < d && x == q * d + r
    ensures x / d == q && x % d == r
  {
    var q', r' := x / d, x % d;
    assert x == q' * d + r' && 0 <= r' < d;
    assert (q - q') * d == r' - r by {
      assert (q - q') * d == q * d - q' * d;
    }
    assert (q' - q) * d == -((q - q') * d);
    if q > q' { MulGe(q - q', d); }
    if q < q' { MulGe(q' - q, d); }
  }

  lemma MulGe(k: int, d: int)
    requires k >= 1 && d >= 0
    ensures k * d >= d
  {
  }

  lemma {:induction false} OnesBit(n: nat, i: nat)
    ensures Bit(Pow2(n) - 1, i) == (i < n)
    decreases n
  {
    if n == 0 { ZeroBit(i); }
    else if i > 0 {
      assert (Pow2(n) - 1) / 2 == Pow2(n - 1) - 1;
      OnesBit(n - 1, i - 1);
    }
  }

  lemma {:induction false} PowBit(n: nat, i: nat)
    ensures Bit(Pow2(n), i) == (i == n)
    decreases n
  {
    if n == 0 {
      if i > 0 { ZeroBit(i - 1); }
    } else if i > 0 {
      PowBit(n - 1, i - 1);
    }
  }

  // Adding 2^k to a number below it sets bit k and nothing else.
  lemma {:induction false} AddPowBit(x: nat, k: nat, i: nat)
    requires x < Pow2(k)
    ensures Bit(x + Pow2(k), i) == (i == k || Bit(x, i))
    decreases k
  {
    if k == 0 {
      if i > 0 { ZeroBit(i - 1); ZeroBit(i); }
    } else if i > 0 {
      assert (x + Pow2(k)) / 2 == x / 2 + Pow2(k - 1);
      AddPowBit(x / 2, k - 1, i - 1);
    }
  }

  // The low k bits of x, taken with a mask of ones, are the remainder modulo 2^k.
  lemma {:induction false} ModBit(x: nat, k: nat, i: nat)
    ensures Bit(x % Pow2(k), i) == (i < k && Bit(x, i))
    decreases k
  {
    if k == 0 { ZeroBit(i); }
    else {
      ModHalf(x, Pow2(k - 1));
      if i > 0 { ModBit(x / 2, k - 1, i - 1); }
    }
  }

  lemma ModHalf(x: nat, d: nat)
    requires d > 0
    ensures x % (2 * d) % 2 == x % 2
    ensures x % (2 * d) / 2 == x / 2 % d
  {
    var q, r := x / (2 * d), x % (2 * d);
    assert x == q * (2 * d) + r;
    MulSwap(q, d);
    assert x == 2 * (q * d) + r;
    assert x / 2 == q * d + r / 2;
    assert r / 2 < d;
    DivUnique(x / 2, d, q, r / 2);
  }

  lemma AndMask(x: nat, k: nat)
    ensures And(x, Pow2(k) - 1) == x % Pow2(k)
  {
    var n := BoundingPower(x, k);
    forall i: nat | i < n ensures Bit(x % Pow2(k), i) == (Bit(x, i) && Bit(Pow2(k) - 1, i)) {
      OnesBit(k, i);
      ModBit(x, k, i);
    }
    BitwiseIs((p: bool, q: bool) => p && q, x, Pow2(k) - 1, x % Pow2(k), n);
  }

  lemma {:induction false} BoundingPower(x: nat, k: nat) returns (n: nat)
    ensures k <= n && x < Pow2(n) && Pow2(k) <= Pow2(n)
    decreases x
  {
    if x < Pow2(k) { n := k; }
    else if k == 0 && x == 1 { n := 1; }
    else {
      n := BoundingPower(x / 2, k);
      n := n + 1;
    }
  }

  // Byte i of v, counting from the least significant one.
  function Digit(v: nat, i: nat): Byte {
    if i == 0 then v % 256 else Digit(v / 256, i - 1)
  }

  // Little-endian bytes of a word.
  function ToBytes(v: nat, n: nat): (s: seq<Byte>)
    ensures |s| == n
  {
    seq(n, i requires 0 <= i < n => Digit(v, i))
  }

  function FromBytes(s: seq<Byte>): nat {
    if s == [] then 0 else s[0] + 256 * FromBytes(s[1..])
  }

  lemma {:induction false} BytesRoundTrip(v: nat, n: nat)
    requires v < Pow2(8 * n)
    ensures FromBytes(ToBytes(v, n)) == v
    decreases n
  {
    if n > 0 {
      assert Pow2(8 * n) == 256 * Pow2(8 * (n - 1)) by {
        Pow2Add(8, 8 * (n - 1));
        assert Pow2(8) == 256;
      }
      BytesRoundTrip(v / 256, n - 1);
      assert ToBytes(v, n)[1..] == ToBytes(v / 256, n - 1);
    }
  }
}
