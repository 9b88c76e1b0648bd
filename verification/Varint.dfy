/** Unsigned varints as Go's encoding/binary reads them, and the bytes that encode a number. */
module Varint {
  import opened Words

  /** What reading gives: a number and how many bytes it took, too few bytes, or too large a number. */
  datatype Varint = Number(x: nat, len: nat) | Short | Overflow

  // Reads from the i-th byte of a varint on: seven bits a byte, the lowest first.
  function UvarintFrom(b: seq<Byte>, i: nat): (r: Varint)
    ensures r.Number? ==> 0 < r.len <= |b|
  {
    if b == [] then Short
    else if i == 10 then Overflow
    else if b[0] < 0x80 then
      if i == 9 && b[0] > 1 then Overflow else Number(b[0], 1)
    else
      match UvarintFrom(b[1..], i + 1)
      case Number(x, len) => Number(b[0] - 0x80 + 0x80 * x, len + 1)
      case Short => Short
      case Overflow => Overflow
  }

  function Uvarint(b: seq<Byte>): (r: Varint)
    ensures r.Number? ==> 0 < r.len <= |b|
  {
    UvarintFrom(b, 0)
  }

  function PutUvarint(v: nat): (s: seq<Byte>)
    ensures |s| > 0
  {
    if v < 0x80 then [v] else [v % 0x80 + 0x80] + PutUvarint(v / 0x80)
  }

  lemma {:induction false} ReadFrom(v: nat, rest: seq<Byte>, i: nat)
    requires i <= 9 && v < Pow2(64 - 7 * i)
    ensures UvarintFrom(PutUvarint(v) + rest, i) == Number(v, |PutUvarint(v)|)
    decreases v
  {
    var s := PutUvarint(v) + rest;
    if i == 9 { assert Pow2(1) == 2; }
    if v < 0x80 {
      assert s[0] == v;
    } else {
      Pow2Seven(57 - 7 * i);
      ReadFrom(v / 0x80, rest, i + 1);
      assert s[0] == v % 0x80 + 0x80 && s[1..] == PutUvarint(v / 0x80) + rest;
    }
  }

  lemma Pow2Seven(k: nat)
    ensures Pow2(k + 7) == 0x80 * Pow2(k)
  {
    assert Pow2(k + 7) == 2 * Pow2(k + 6) && Pow2(k + 6) == 2 * Pow2(k + 5) && Pow2(k + 5) == 2 * Pow2(k + 4);
    assert Pow2(k + 4) == 2 * Pow2(k + 3) && Pow2(k + 3) == 2 * Pow2(k + 2) && Pow2(k + 2) == 2 * Pow2(k + 1);
  }

  /** Reading what was put gives the number back, and takes exactly its bytes. */
  lemma VarintRoundTrip(v: nat, rest: seq<Byte>)
    requires v < WORD
    ensures Uvarint(PutUvarint(v) + rest) == Number(v, |PutUvarint(v)|)
  {
    Pow2Values();
    ReadFrom(v, rest, 0);
  }

  // The number a group of seven bits a byte stands for, the lowest first.
  function Digits(b: seq<Byte>): nat {
    if b == [] then 0 else b[0] % 0x80 + 0x80 * Digits(b[1..])
  }

  // Every byte but the last is marked as having a next one.
  predicate Terminated(b: seq<Byte>) {
    b != [] && b[|b| - 1] < 0x80 && forall k :: 0 <= k < |b| - 1 ==> b[k] >= 0x80
  }

  /** What is put are the digits of the number in base 128, marked but for the last, and no more of them than needed. */
  lemma {:induction false} PutDigits(v: nat)
    ensures var b := PutUvarint(v); Terminated(b) && Digits(b) == v && (|b| > 1 ==> b[|b| - 1] != 0)
    decreases v
  {
    var b := PutUvarint(v);
    if v >= 0x80 {
      PutDigits(v / 0x80);
      assert b[1..] == PutUvarint(v / 0x80);
    } else {
      assert b[1..] == [];
    }
  }

  // The first byte that ends a varint, or the number of bytes.
  function End(b: seq<Byte>): (n: nat)
    ensures n <= |b| && (n < |b| ==> b[n] < 0x80) && forall k :: 0 <= k < n ==> b[k] >= 0x80
  {
    if b == [] || b[0] < 0x80 then 0 else 1 + End(b[1..])
  }

  lemma {:induction false} ReadDigits(b: seq<Byte>, i: nat)
    requires i <= 10
    ensures UvarintFrom(b, i) ==
            if End(b) == |b| && i + |b| <= 10 then Short
            else if i + End(b) > 9 || (i + End(b) == 9 && b[End(b)] > 1) then Overflow
            else Number(Digits(b[..End(b) + 1]), End(b) + 1)
    decreases |b|
  {
    if b != [] && b[0] < 0x80 {
      assert b[..1] == [b[0]] && [b[0]][1..] == [];
    } else if b != [] && i < 10 {
      ReadDigits(b[1..], i + 1);
      if End(b) < |b| { assert b[..End(b) + 1][1..] == b[1..][..End(b[1..]) + 1]; }
    }
  }

  /** Reading, on any bytes: too few of them if none ends the number and there are at most 10, too large a number if it
      takes more than 10 or the tenth is above 1, and otherwise the number the bytes stand for. */
  lemma UvarintExactly(b: seq<Byte>)
    ensures Uvarint(b) ==
            if End(b) == |b| <= 10 then Short
            else if End(b) > 9 || (End(b) == 9 && b[9] > 1) then Overflow
            else Number(Digits(b[..End(b) + 1]), End(b) + 1)
  {
    ReadDigits(b, 0);
  }
}
