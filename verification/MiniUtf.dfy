/** UTF-8, UTF-16 and UTF-32 conversion. Strings are sequences of code units. */
module MiniUtf {
  // --- Encoding ---

  const REPLACEMENT: bv32 := 0xFFFD

  predicate InRange(pt: bv32) {
    pt < 0x110000
  }

  predicate IsSurrogate(pt: bv32) {
    0xD800 <= pt < 0xE000
  }

  // A Unicode scalar value.
  predicate IsScalar(pt: bv32) {
    InRange(pt) && !IsSurrogate(pt)
  }

  function Tail(pt: bv32): bv8 {
    ((pt & 0x3F) | 0x80) as bv8
  }

  function Lead2(pt: bv32): bv8
    requires pt < 0x800
  {
    ((pt >> 6) | 0xC0) as bv8
  }

  function Lead3(pt: bv32): bv8
    requires pt < 0x10000
  {
    ((pt >> 12) | 0xE0) as bv8
  }

  function Lead4(pt: bv32): bv8
    requires pt < 0x110000
  {
    ((pt >> 18) | 0xF0) as bv8
  }

  function Encode8(pt: bv32): (r: seq<bv8>)
    ensures 1 <= |r| <= 4
  {
    if pt < 0x80 then [pt as bv8]
    else if pt < 0x800 then [Lead2(pt), Tail(pt)]
    else if pt < 0x10000 then [Lead3(pt), Tail(pt >> 6), Tail(pt)]
    else if pt < 0x110000 then [Lead4(pt), Tail(pt >> 12), Tail(pt >> 6), Tail(pt)]
    else [0xEF, 0xBF, 0xBD]
  }

  function HighOf(pt: bv32): bv16
    requires 0x10000 <= pt < 0x110000
  {
    (((pt - 0x10000) >> 10) + 0xD800) as bv16
  }

  function LowOf(pt: bv32): bv16 {
    ((pt & 0x3FF) + 0xDC00) as bv16
  }

  function Encode32(pt: bv32): seq<bv32> {
    [pt]
  }

  function Encode16(pt: bv32): (r: seq<bv16>)
    ensures 1 <= |r| <= 2
  {
    if pt < 0x10000 then [pt as bv16]
    else if pt < 0x110000 then [HighOf(pt), LowOf(pt)]
    else [0xFFFD]
  }

  /** The bytes of a code point are the digits of its number in base 64, the first marked with how many there are. */
  lemma Utf8Digits(pt: bv32)
    ensures pt < 0x80 ==> Encode8(pt) == [pt as bv8]
    ensures 0x80 <= pt < 0x800 ==> Encode8(pt) == [(0xC0 + pt / 64) as bv8, (0x80 + pt % 64) as bv8]
    ensures 0x800 <= pt < 0x10000 ==>
              Encode8(pt) == [(0xE0 + pt / 4096) as bv8, (0x80 + pt / 64 % 64) as bv8, (0x80 + pt % 64) as bv8]
    ensures 0x10000 <= pt < 0x110000 ==>
              Encode8(pt) == [(0xF0 + pt / 262144) as bv8, (0x80 + pt / 4096 % 64) as bv8,
                              (0x80 + pt / 64 % 64) as bv8, (0x80 + pt % 64) as bv8]
  {
  }

  /** A code point above the first 65536 is a pair of surrogates: the digits of the rest in base 1024. */
  lemma Utf16Digits(pt: bv32)
    requires 0x10000 <= pt < 0x110000
    ensures Encode16(pt) == [(0xD800 + (pt - 0x10000) / 1024) as bv16, (0xDC00 + (pt - 0x10000) % 1024) as bv16]
  {
  }

  // --- Decoding one code point ---

  datatype Checked = Invalid | Valid(offset: nat, pt: bv32)

  // The string is followed by a terminator, which is as far as it may be read.
  function At(s: seq<bv8>, i: nat): bv8
    requires i <= |s|
  {
    if i < |s| then s[i] else 0
  }

  predicate IsTail(b: bv8) {
    b & 0xC0 == 0x80
  }

  function Join2(b0: bv8, b1: bv8): bv32 {
    (((b0 as bv32) & 0x1F) << 6) | ((b1 as bv32) & 0x3F)
  }

  function Join3(b0: bv8, b1: bv8, b2: bv8): bv32 {
    (((b0 as bv32) & 0x0F) << 12) | (((b1 as bv32) & 0x3F) << 6) | ((b2 as bv32) & 0x3F)
  }

  function Join4(b0: bv8, b1: bv8, b2: bv8, b3: bv8): bv32 {
    (((b0 as bv32) & 0x0F) << 18) | (((b1 as bv32) & 0x3F) << 12) | (((b2 as bv32) & 0x3F) << 6) | ((b3 as bv32) & 0x3F)
  }

  /** Reads no further than the terminator; a code point it finds ends within the string. */
  function Check8(s: seq<bv8>, i: nat): (r: Checked)
    ensures r.Valid? ==> 1 <= r.offset <= 4 && i + r.offset <= |s|
  {
    if i >= |s| then Invalid
    else if s[i] < 0x80 then Valid(1, s[i] as bv32)
    else if s[i] < 0xC0 then Invalid
    else if s[i] < 0xE0 then CheckTwo(s, i)
    else if s[i] < 0xF0 then CheckThree(s, i)
    else if s[i] < 0xF8 then CheckFour(s, i)
    else Invalid
  }

  function CheckTwo(s: seq<bv8>, i: nat): (r: Checked)
    requires i < |s|
    ensures r.Valid? ==> r.offset == 2 && i + 2 <= |s|
  {
    if !IsTail(At(s, i + 1)) then Invalid
    else
      var pt := Join2(s[i], At(s, i + 1));
      if pt < 0x80 then Invalid else Valid(2, pt)
  }

  function CheckThree(s: seq<bv8>, i: nat): (r: Checked)
    requires i < |s|
    ensures r.Valid? ==> r.offset == 3 && i + 3 <= |s|
  {
    if !IsTail(At(s, i + 1)) then Invalid
    else if !IsTail(At(s, i + 2)) then Invalid
    else
      var pt := Join3(s[i], At(s, i + 1), At(s, i + 2));
      if pt < 0x800 then Invalid else Valid(3, pt)
  }

  function CheckFour(s: seq<bv8>, i: nat): (r: Checked)
    requires i < |s|
    ensures r.Valid? ==> r.offset == 4 && i + 4 <= |s|
  {
    if !IsTail(At(s, i + 1)) then Invalid
    else if !IsTail(At(s, i + 2)) then Invalid
    else if !IsTail(At(s, i + 3)) then Invalid
    else
      var pt := Join4(s[i], At(s, i + 1), At(s, i + 2), At(s, i + 3));
      if pt < 0x10000 || pt >= 0x110000 then Invalid else Valid(4, pt)
  }

  predicate IsHigh(c: bv16) {
    0xD800 <= c < 0xDC00
  }

  predicate IsLow(c: bv16) {
    0xDC00 <= c < 0xE000
  }

  function JoinPair(h: bv16, l: bv16): bv32
    requires IsHigh(h) && IsLow(l)
  {
    ((((h - 0xD800) as bv32) << 10) | ((l - 0xDC00) as bv32)) + 0x10000
  }

  function Check16(s: seq<bv16>, i: nat): (r: Checked)
    ensures r.Valid? ==> 1 <= r.offset <= 2 && i + r.offset <= |s|
  {
    if i >= |s| then Invalid
    else if i + 1 < |s| then CheckUnits(s[i], true, s[i + 1])
    else CheckUnits(s[i], false, 0)
  }

  // The unit at hand, whether another follows, and which.
  function CheckUnits(c: bv16, more: bool, d: bv16): (r: Checked)
    ensures r.Valid? ==> r.offset == if more && IsHigh(c) then 2 else 1
  {
    if IsHigh(c) && more && IsLow(d) then Valid(2, JoinPair(c, d))
    else if IsHigh(c) || IsLow(c) then Invalid
    else Valid(1, c as bv32)
  }

  function Check32(s: seq<bv32>, i: nat): (r: Checked)
    ensures r.Valid? ==> r.offset == 1 && i + 1 <= |s|
  {
    if i < |s| && s[i] < 0x110000 then Valid(1, s[i]) else Invalid
  }

  // --- Whole strings, for any encoding form ---

  /** How to encode a code point, and how to look for one at a position. */
  datatype Form<!T> = Form(encode: bv32 -> seq<T>, check: (seq<T>, nat) -> Checked)

  const UTF8 := Form(Encode8, Check8)
  const UTF16 := Form(Encode16, Check16)
  const UTF32 := Form(Encode32, Check32)

  function EncodeAll<T>(f: Form<T>, u: seq<bv32>): seq<T> {
    if u == [] then [] else f.encode(u[0]) + EncodeAll(f, u[1..])
  }

  ghost predicate InBounds<T>(f: Form<T>, s: seq<T>) {
    forall i :: 0 <= i < |s| && f.check(s, i).Valid? ==> 1 <= f.check(s, i).offset <= |s| - i
  }

  // A code point and where the next one starts; a unit that starts none becomes U+FFFD.
  function Step<T>(f: Form<T>, s: seq<T>, i: nat): (r: (bv32, nat))
    requires i < |s| && InBounds(f, s)
    ensures i < r.1 <= |s|
  {
    var c := f.check(s, i);
    if c.Valid? then (c.pt, i + c.offset) else (REPLACEMENT, i + 1)
  }

  function Decode<T>(f: Form<T>, s: seq<T>, i: nat): seq<bv32>
    requires i <= |s| && InBounds(f, s)
    decreases |s| - i
  {
    if i == |s| then [] else var (pt, j) := Step(f, s, i); [pt] + Decode(f, s, j)
  }

  predicate WellFormed<T>(f: Form<T>, s: seq<T>, i: nat)
    requires i <= |s| && InBounds(f, s)
    decreases |s| - i
  {
    i == |s| || (f.check(s, i).Valid? && WellFormed(f, s, i + f.check(s, i).offset))
  }

  // --- What the two functions of an encoding form owe each other ---

  predicate All(good: bv32 -> bool, u: seq<bv32>) {
    forall k :: 0 <= k < |u| ==> good(u[k])
  }

  ghost predicate DecodesAt<T>(f: Form<T>, good: bv32 -> bool, s: seq<T>, i: nat)
    requires i < |s|
  {
    var c := f.check(s, i);
    c.Valid? ==> 1 <= c.offset <= |s| - i && good(c.pt) && f.encode(c.pt) == s[i..i + c.offset]
  }

  ghost predicate EncodesTo<T>(f: Form<T>, pt: bv32, rest: seq<T>) {
    |f.encode(pt)| > 0 && f.check(f.encode(pt) + rest, 0) == Valid(|f.encode(pt)|, pt)
  }

  ghost predicate Shifts<T>(f: Form<T>, a: seq<T>, b: seq<T>, i: nat) {
    f.check(a + b, |a| + i) == f.check(b, i)
  }

  ghost predicate Lawful<T(!new)>(f: Form<T>, good: bv32 -> bool) {
    && good(REPLACEMENT)
    && (forall s: seq<T>, i: nat :: i < |s| ==> DecodesAt(f, good, s, i))
    && (forall pt, rest: seq<T> :: good(pt) ==> EncodesTo(f, pt, rest))
    && (forall a: seq<T>, b: seq<T>, i: nat :: i < |b| ==> Shifts(f, a, b, i))
  }

  lemma LawfulInBounds<T(!new)>(f: Form<T>, good: bv32 -> bool, s: seq<T>)
    requires Lawful(f, good)
    ensures InBounds(f, s)
  {
    forall i | 0 <= i < |s| && f.check(s, i).Valid? ensures 1 <= f.check(s, i).offset <= |s| - i {
      assert DecodesAt(f, good, s, i);
    }
  }

  // A suffix is decoded as it would be on its own.
  lemma {:induction false} DecodeShift<T(!new)>(f: Form<T>, good: bv32 -> bool, a: seq<T>, b: seq<T>, i: nat)
    requires Lawful(f, good) && i <= |b| && InBounds(f, b) && InBounds(f, a + b)
    ensures Decode(f, a + b, |a| + i) == Decode(f, b, i) && WellFormed(f, a + b, |a| + i) == WellFormed(f, b, i)
    decreases |b| - i
  {
    if i < |b| {
      assert Shifts(f, a, b, i);
      DecodeShift(f, good, a, b, Step(f, b, i).1);
    }
  }

  lemma {:induction false} DecodeEncode<T(!new)>(f: Form<T>, good: bv32 -> bool, u: seq<bv32>)
    requires Lawful(f, good) && All(good, u)
    ensures InBounds(f, EncodeAll(f, u)) && Decode(f, EncodeAll(f, u), 0) == u && WellFormed(f, EncodeAll(f, u), 0)
  {
    LawfulInBounds(f, good, EncodeAll(f, u));
    if u != [] {
      var e, rest := f.encode(u[0]), EncodeAll(f, u[1..]);
      DecodeEncode(f, good, u[1..]);
      assert EncodesTo(f, u[0], rest);
      DecodeShift(f, good, e, rest, 0);
      assert Step(f, e + rest, 0) == (u[0], |e|);
    }
  }

  lemma {:induction false} EncodeDecode<T(!new)>(f: Form<T>, good: bv32 -> bool, s: seq<T>, i: nat)
    requires Lawful(f, good) && i <= |s| && InBounds(f, s) && WellFormed(f, s, i)
    ensures EncodeAll(f, Decode(f, s, i)) == s[i..]
    decreases |s| - i
  {
    if i < |s| {
      assert DecodesAt(f, good, s, i);
      var j := Step(f, s, i).1;
      EncodeDecode(f, good, s, j);
      assert s[i..] == s[i..j] + s[j..];
      assert Decode(f, s, i)[1..] == Decode(f, s, j);
    }
  }

  // What comes out of a decoder, whatever went in.
  lemma {:induction false} DecodeGood<T(!new)>(f: Form<T>, good: bv32 -> bool, s: seq<T>, i: nat)
    requires Lawful(f, good) && i <= |s| && InBounds(f, s)
    ensures All(good, Decode(f, s, i))
    decreases |s| - i
  {
    if i < |s| {
      assert DecodesAt(f, good, s, i);
      DecodeGood(f, good, s, Step(f, s, i).1);
    }
  }

  /** A string passes the check exactly when it is the encoding of some code points. */
  lemma WellFormedIffEncoding<T(!new)>(f: Form<T>, good: bv32 -> bool, s: seq<T>)
    requires Lawful(f, good) && InBounds(f, s)
    ensures WellFormed(f, s, 0) <==> exists u :: All(good, u) && s == EncodeAll(f, u)
  {
    if WellFormed(f, s, 0) {
      DecodeGood(f, good, s, 0);
      EncodeDecode(f, good, s, 0);
      assert s[0..] == s;
    } else {
      forall u | All(good, u) ensures s != EncodeAll(f, u) { DecodeEncode(f, good, u); }
    }
  }

  // --- Bits: encoding and decoding one code point ---

  lemma Split2(pt: bv32)
    requires 0x80 <= pt < 0x800
    ensures var b0, b1 := Lead2(pt), Tail(pt);
            0xC0 <= b0 < 0xE0 && IsTail(b1) && Join2(b0, b1) == pt
  {
  }

  lemma Split3(pt: bv32)
    requires 0x800 <= pt < 0x10000
    ensures var b0, b1, b2 := Lead3(pt), Tail(pt >> 6), Tail(pt);
            0xE0 <= b0 < 0xF0 && IsTail(b1) && IsTail(b2) && Join3(b0, b1, b2) == pt
  {
  }

  lemma Split4(pt: bv32)
    requires 0x10000 <= pt < 0x110000
    ensures var b0, b1, b2, b3 := Lead4(pt), Tail(pt >> 12), Tail(pt >> 6), Tail(pt);
            0xF0 <= b0 < 0xF8 && IsTail(b1) && IsTail(b2) && IsTail(b3) && Join4(b0, b1, b2, b3) == pt
  {
  }

  lemma Unsplit2(b0: bv8, b1: bv8)
    requires 0xC0 <= b0 < 0xE0 && IsTail(b1)
    ensures Join2(b0, b1) < 0x800 && Lead2(Join2(b0, b1)) == b0 && Tail(Join2(b0, b1)) == b1
  {
  }

  lemma Unsplit3(b0: bv8, b1: bv8, b2: bv8)
    requires 0xE0 <= b0 < 0xF0 && IsTail(b1) && IsTail(b2)
    ensures Join3(b0, b1, b2) < 0x10000 && Lead3(Join3(b0, b1, b2)) == b0
    ensures Tail(Join3(b0, b1, b2) >> 6) == b1 && Tail(Join3(b0, b1, b2)) == b2
  {
  }

  predicate Packs4(pt: bv32, b0: bv8, b1: bv8, b2: bv8, b3: bv8) {
    pt < 0x110000 && Lead4(pt) == b0 && Tail(pt >> 12) == b1 && Tail(pt >> 6) == b2 && Tail(pt) == b3
  }

  lemma Unsplit4(b0: bv8, b1: bv8, b2: bv8, b3: bv8)
    requires 0xF0 <= b0 < 0xF8 && IsTail(b1) && IsTail(b2) && IsTail(b3) && Join4(b0, b1, b2, b3) < 0x110000
    ensures Packs4(Join4(b0, b1, b2, b3), b0, b1, b2, b3)
  {
    FirstOf4(b0, b1, b2, b3);
    RestOf4(b0, b1, b2, b3);
  }

  lemma FirstOf4(b0: bv8, b1: bv8, b2: bv8, b3: bv8)
    requires 0xF0 <= b0 < 0xF8 && Join4(b0, b1, b2, b3) < 0x110000
    ensures Lead4(Join4(b0, b1, b2, b3)) == b0
  {
  }

  lemma RestOf4(b0: bv8, b1: bv8, b2: bv8, b3: bv8)
    requires IsTail(b1) && IsTail(b2) && IsTail(b3)
    ensures Tail(Join4(b0, b1, b2, b3) >> 12) == b1
    ensures Tail(Join4(b0, b1, b2, b3) >> 6) == b2
    ensures Tail(Join4(b0, b1, b2, b3)) == b3
  {
  }

  lemma Bytes2(pt: bv32, b0: bv8, b1: bv8)
    requires 0x80 <= pt < 0x800 && Lead2(pt) == b0 && Tail(pt) == b1
    ensures Encode8(pt) == [b0, b1]
  {
  }

  lemma Bytes3(pt: bv32, b0: bv8, b1: bv8, b2: bv8)
    requires 0x800 <= pt < 0x10000 && Lead3(pt) == b0 && Tail(pt >> 6) == b1 && Tail(pt) == b2
    ensures Encode8(pt) == [b0, b1, b2]
  {
  }

  lemma Bytes4(pt: bv32, b0: bv8, b1: bv8, b2: bv8, b3: bv8)
    requires 0x10000 <= pt && Packs4(pt, b0, b1, b2, b3)
    ensures Encode8(pt) == [b0, b1, b2, b3]
  {
  }

  lemma HighBits(pt: bv32)
    requires 0x10000 <= pt < 0x110000
    ensures IsHigh(HighOf(pt)) && (HighOf(pt) - 0xD800) as bv32 == (pt - 0x10000) >> 10
  {
  }

  lemma LowBits(pt: bv32)
    ensures IsLow(LowOf(pt)) && (LowOf(pt) - 0xDC00) as bv32 == (pt - 0x10000) & 0x3FF
  {
  }

  lemma Rejoin(x: bv32)
    ensures ((x >> 10) << 10) | (x & 0x3FF) == x
  {
  }

  lemma SplitPair(pt: bv32)
    requires 0x10000 <= pt < 0x110000
    ensures IsHigh(HighOf(pt)) && IsLow(LowOf(pt)) && JoinPair(HighOf(pt), LowOf(pt)) == pt
  {
    HighBits(pt);
    LowBits(pt);
    Rejoin(pt - 0x10000);
  }

  lemma UnsplitPair(h: bv16, l: bv16)
    requires IsHigh(h) && IsLow(l)
    ensures 0x10000 <= JoinPair(h, l) < 0x110000 && HighOf(JoinPair(h, l)) == h && LowOf(JoinPair(h, l)) == l
  {
  }

  lemma Units(pt: bv32, h: bv16, l: bv16)
    requires 0x10000 <= pt < 0x110000 && HighOf(pt) == h && LowOf(pt) == l
    ensures Encode16(pt) == [h, l]
  {
  }

  lemma Single(c: bv16)
    ensures Encode16(c as bv32) == [c] && (!IsHigh(c) && !IsLow(c) ==> IsScalar(c as bv32))
  {
  }

  lemma SingleBack(pt: bv32)
    requires pt < 0x10000 && !IsSurrogate(pt)
    ensures Encode16(pt) == [pt as bv16] && (pt as bv16) as bv32 == pt && !IsHigh(pt as bv16) && !IsLow(pt as bv16)
  {
  }

  lemma OneByte(b: bv8)
    requires b < 0x80
    ensures Encode8(b as bv32) == [b] && InRange(b as bv32)
  {
  }

  lemma CheckEncoded8(pt: bv32, rest: seq<bv8>)
    requires InRange(pt)
    ensures Check8(Encode8(pt) + rest, 0) == Valid(|Encode8(pt)|, pt)
  {
    var e := Encode8(pt);
    var s := e + rest;
    assert s[..|e|] == e;
    if pt < 0x80 {
      assert s[0] == pt as bv8;
    } else if pt < 0x800 {
      Split2(pt);
      assert s[0] == e[0] && s[1] == e[1];
    } else if pt < 0x10000 {
      Split3(pt);
      assert s[0] == e[0] && s[1] == e[1] && s[2] == e[2];
    } else {
      Split4(pt);
      assert s[0] == e[0] && s[1] == e[1] && s[2] == e[2] && s[3] == e[3];
    }
  }

  lemma CheckedTwo(s: seq<bv8>, i: nat)
    requires i < |s| && 0xC0 <= s[i] < 0xE0 && CheckTwo(s, i).Valid?
    ensures InRange(CheckTwo(s, i).pt) && Encode8(CheckTwo(s, i).pt) == s[i..i + 2]
  {
    Unsplit2(s[i], s[i + 1]);
    Bytes2(Join2(s[i], s[i + 1]), s[i], s[i + 1]);
  }

  lemma CheckedThree(s: seq<bv8>, i: nat)
    requires i < |s| && 0xE0 <= s[i] < 0xF0 && CheckThree(s, i).Valid?
    ensures InRange(CheckThree(s, i).pt) && Encode8(CheckThree(s, i).pt) == s[i..i + 3]
  {
    Unsplit3(s[i], s[i + 1], s[i + 2]);
    Bytes3(Join3(s[i], s[i + 1], s[i + 2]), s[i], s[i + 1], s[i + 2]);
  }

  lemma CheckedFour(s: seq<bv8>, i: nat)
    requires i < |s| && 0xF0 <= s[i] < 0xF8 && CheckFour(s, i).Valid?
    ensures InRange(CheckFour(s, i).pt) && Encode8(CheckFour(s, i).pt) == s[i..i + 4]
  {
    FourBytes(s[i], s[i + 1], s[i + 2], s[i + 3]);
    assert s[i..i + 4] == [s[i], s[i + 1], s[i + 2], s[i + 3]];
  }

  lemma FourBytes(b0: bv8, b1: bv8, b2: bv8, b3: bv8)
    requires 0xF0 <= b0 < 0xF8 && IsTail(b1) && IsTail(b2) && IsTail(b3)
    requires 0x10000 <= Join4(b0, b1, b2, b3) < 0x110000
    ensures Encode8(Join4(b0, b1, b2, b3)) == [b0, b1, b2, b3]
  {
    Unsplit4(b0, b1, b2, b3);
    Bytes4(Join4(b0, b1, b2, b3), b0, b1, b2, b3);
  }

  lemma EncodeChecked8(s: seq<bv8>, i: nat)
    requires i < |s| && Check8(s, i).Valid?
    ensures InRange(Check8(s, i).pt) && Encode8(Check8(s, i).pt) == s[i..i + Check8(s, i).offset]
  {
    if s[i] < 0x80 { OneByte(s[i]); }
    else if s[i] < 0xE0 { CheckedTwo(s, i); }
    else if s[i] < 0xF0 { CheckedThree(s, i); }
    else { CheckedFour(s, i); }
  }

  lemma CheckShift8(a: seq<bv8>, b: seq<bv8>, i: nat)
    requires i < |b|
    ensures Check8(a + b, |a| + i) == Check8(b, i)
  {
    var s := a + b;
    assert forall k :: 0 <= k <= |b| ==> At(s, |a| + k) == At(b, k);
    assert s[|a| + i] == b[i];
    assert At(s, |a| + i + 1) == At(b, i + 1);
  }

  lemma CheckPair(h: bv16, l: bv16, pt: bv32, rest: seq<bv16>)
    requires IsHigh(h) && IsLow(l) && JoinPair(h, l) == pt
    ensures Check16([h, l] + rest, 0) == Valid(2, pt)
  {
    var s := [h, l] + rest;
    assert s[0] == h && s[1] == l;
  }

  lemma CheckSingle(c: bv16, rest: seq<bv16>)
    requires !IsHigh(c) && !IsLow(c)
    ensures Check16([c] + rest, 0) == Valid(1, c as bv32)
  {
    assert ([c] + rest)[0] == c;
  }

  lemma CheckEncoded16(pt: bv32, rest: seq<bv16>)
    requires IsScalar(pt)
    ensures Check16(Encode16(pt) + rest, 0) == Valid(|Encode16(pt)|, pt)
  {
    if pt < 0x10000 {
      SingleBack(pt);
      CheckSingle(pt as bv16, rest);
    } else {
      SplitPair(pt);
      Units(pt, HighOf(pt), LowOf(pt));
      CheckPair(HighOf(pt), LowOf(pt), pt, rest);
    }
  }

  lemma Pair(h: bv16, l: bv16)
    requires IsHigh(h) && IsLow(l)
    ensures IsScalar(JoinPair(h, l)) && Encode16(JoinPair(h, l)) == [h, l]
  {
    UnsplitPair(h, l);
    Units(JoinPair(h, l), h, l);
  }

  lemma EncodeUnits(c: bv16, more: bool, d: bv16)
    requires CheckUnits(c, more, d).Valid?
    ensures var r := CheckUnits(c, more, d); IsScalar(r.pt) && Encode16(r.pt) == if r.offset == 2 then [c, d] else [c]
  {
    if IsHigh(c) && more && IsLow(d) { Pair(c, d); } else { Single(c); }
  }

  lemma EncodeChecked16(s: seq<bv16>, i: nat)
    requires i < |s| && Check16(s, i).Valid?
    ensures IsScalar(Check16(s, i).pt) && Encode16(Check16(s, i).pt) == s[i..i + Check16(s, i).offset]
  {
    assert s[i..i + 1] == [s[i]];
    if i + 1 < |s| {
      assert s[i..i + 2] == [s[i], s[i + 1]];
      EncodeUnits(s[i], true, s[i + 1]);
    } else {
      EncodeUnits(s[i], false, 0);
    }
  }

  lemma CheckShift16(a: seq<bv16>, b: seq<bv16>, i: nat)
    requires i < |b|
    ensures Check16(a + b, |a| + i) == Check16(b, i)
  {
    var s := a + b;
    assert s[|a| + i] == b[i];
    if i + 1 < |b| { assert s[|a| + i + 1] == b[i + 1]; }
  }

  // --- UTF-8 carries every code point below 0x110000, UTF-16 the scalar values ---

  lemma Utf8Lawful()
    ensures Lawful(UTF8, InRange)
  {
    forall s: seq<bv8>, i: nat | i < |s| ensures DecodesAt(UTF8, InRange, s, i) {
      if Check8(s, i).Valid? { EncodeChecked8(s, i); }
    }
    forall pt, rest: seq<bv8> | InRange(pt) ensures EncodesTo(UTF8, pt, rest) { CheckEncoded8(pt, rest); }
    forall a: seq<bv8>, b: seq<bv8>, i: nat | i < |b| ensures Shifts(UTF8, a, b, i) { CheckShift8(a, b, i); }
  }

  lemma Utf16Lawful()
    ensures Lawful(UTF16, IsScalar)
  {
    forall s: seq<bv16>, i: nat | i < |s| ensures DecodesAt(UTF16, IsScalar, s, i) {
      if Check16(s, i).Valid? { EncodeChecked16(s, i); }
    }
    forall pt, rest: seq<bv16> | IsScalar(pt) ensures EncodesTo(UTF16, pt, rest) { CheckEncoded16(pt, rest); }
    forall a: seq<bv16>, b: seq<bv16>, i: nat | i < |b| ensures Shifts(UTF16, a, b, i) { CheckShift16(a, b, i); }
  }

  // --- Round trips, with the exact condition for each ---

  /** From UTF-16 to UTF-8 and back: the string returns exactly when it is well-formed UTF-16. */
  lemma RoundTrip16(s: seq<bv16>)
    ensures EncodeAll(UTF16, Decode(UTF8, EncodeAll(UTF8, Decode(UTF16, s, 0)), 0)) == s <==> WellFormed(UTF16, s, 0)
  {
    Utf8Lawful();
    Utf16Lawful();
    var u := Decode(UTF16, s, 0);
    DecodeGood(UTF16, IsScalar, s, 0);
    DecodeEncode(UTF8, InRange, u);
    DecodeEncode(UTF16, IsScalar, u);
    if WellFormed(UTF16, s, 0) { EncodeDecode(UTF16, IsScalar, s, 0); }
  }

  /** From UTF-8 to UTF-16 and back: the string returns exactly when it is well-formed and encodes no
      surrogate. */
  lemma RoundTrip8(s: seq<bv8>)
    ensures EncodeAll(UTF8, Decode(UTF16, EncodeAll(UTF16, Decode(UTF8, s, 0)), 0)) == s
            <==> WellFormed(UTF8, s, 0) && All(IsScalar, Decode(UTF8, s, 0))
  {
    Utf8Lawful();
    Utf16Lawful();
    var u := Decode(UTF8, s, 0);
    var t := EncodeAll(UTF16, u);
    DecodeGood(UTF16, IsScalar, t, 0);
    DecodeEncode(UTF8, InRange, Decode(UTF16, t, 0));
    if WellFormed(UTF8, s, 0) && All(IsScalar, u) {
      DecodeEncode(UTF16, IsScalar, u);
      EncodeDecode(UTF8, InRange, s, 0);
    }
  }

  /** A surrogate in UTF-8, 0xED 0xA0 0x80 for one, passes as well-formed and returns as the replacement
      character. */
  lemma SurrogateLost(pt: bv32)
    requires IsSurrogate(pt)
    ensures WellFormed(UTF8, Encode8(pt), 0)
    ensures EncodeAll(UTF8, Decode(UTF16, EncodeAll(UTF16, Decode(UTF8, Encode8(pt), 0)), 0)) == [0xEF, 0xBF, 0xBD]
    ensures Encode8(0xD800) == [0xED, 0xA0, 0x80]
  {
    Utf8Lawful();
    EncodeOne(UTF8, pt);
    DecodeEncode(UTF8, InRange, [pt]);
    EncodeOne(UTF16, pt);
    LoneSurrogate(pt);
    EncodeOne(UTF8, REPLACEMENT);
  }

  lemma EncodeOne<T>(f: Form<T>, pt: bv32)
    ensures EncodeAll(f, [pt]) == f.encode(pt)
  {
    assert [pt][1..] == [] && [pt][..0] == [];
    assert EncodeAll(f, []) == [];
  }

  // On its own it is not UTF-16.
  lemma LoneSurrogate(pt: bv32)
    requires IsSurrogate(pt)
    ensures Decode(UTF16, Encode16(pt), 0) == [REPLACEMENT]
  {
    assert Encode16(pt) == [pt as bv16];
  }

  /** From UTF-32 to UTF-8 and back: the string returns exactly when every code point is below 0x110000. */
  lemma RoundTrip32(u: seq<bv32>)
    ensures Decode(UTF8, EncodeAll(UTF8, u), 0) == u <==> All(InRange, u)
  {
    Utf8Lawful();
    DecodeGood(UTF8, InRange, EncodeAll(UTF8, u), 0);
    if All(InRange, u) { DecodeEncode(UTF8, InRange, u); }
  }

  /** Whatever UTF-16 goes in, what comes out is well-formed UTF-8, free of surrogates. */
  lemma ToUtf8WellFormed(s: seq<bv16>)
    ensures WellFormed(UTF8, EncodeAll(UTF8, Decode(UTF16, s, 0)), 0)
    ensures All(IsScalar, Decode(UTF8, EncodeAll(UTF8, Decode(UTF16, s, 0)), 0))
  {
    Utf8Lawful();
    Utf16Lawful();
    DecodeGood(UTF16, IsScalar, s, 0);
    DecodeEncode(UTF8, InRange, Decode(UTF16, s, 0));
  }

  // --- The program ---

  method DecodeOne<T>(f: Form<T>, str: seq<T>, i: nat, flag: bool) returns (pt: bv32, next: nat, replaced: bool)
    requires i < |str| && InBounds(f, str)
    ensures (pt, next) == Step(f, str, i)
    ensures replaced <==> flag || f.check(str, i).Invalid?
  {
    var res := f.check(str, i);
    if res.Invalid? {
      return REPLACEMENT, i + 1, true;
    }
    return res.pt, i + res.offset, flag;
  }

  lemma {:induction false} EncodeAllAppend<T>(f: Form<T>, u: seq<bv32>, pt: bv32)
    ensures EncodeAll(f, u + [pt]) == EncodeAll(f, u) + f.encode(pt)
  {
    if u == [] {
      assert u + [pt] == [pt];
      assert EncodeAll(f, [pt]) == f.encode(pt) + EncodeAll(f, []);
    } else {
      EncodeAllAppend(f, u[1..], pt);
      assert (u + [pt])[1..] == u[1..] + [pt];
    }
  }

  lemma DecodeNext<T>(f: Form<T>, s: seq<T>, i: nat, u: seq<bv32>)
    requires i < |s| && InBounds(f, s)
    ensures u + Decode(f, s, i) == u + [Step(f, s, i).0] + Decode(f, s, Step(f, s, i).1)
  {
  }

  // The conversion loop; it ends with the index at exactly the length.
  method Convert<S, T>(from: Form<S>, to: Form<T>, str: seq<S>) returns (out: seq<T>, end: nat)
    requires InBounds(from, str)
    ensures out == EncodeAll(to, Decode(from, str, 0)) && end == |str|
  {
    out := [];
    ghost var u: seq<bv32> := [];
    var i: nat := 0;
    while i < |str|
      invariant 0 <= i <= |str| && Decode(from, str, 0) == u + Decode(from, str, i) && out == EncodeAll(to, u)
      decreases |str| - i
    {
      var pt, next, _ := DecodeOne(from, str, i, false);
      EncodeAllAppend(to, u, pt);
      DecodeNext(from, str, i, u);
      out := out + to.encode(pt);
      u := u + [pt];
      i := next;
    }
    assert u + [] == u;
    end := i;
  }

  method CheckHelper<T>(f: Form<T>, str: seq<T>) returns (ok: bool)
    requires InBounds(f, str)
    ensures ok == WellFormed(f, str, 0)
  {
    var i: nat := 0;
    while i < |str|
      invariant 0 <= i <= |str| && WellFormed(f, str, 0) == WellFormed(f, str, i)
      decreases |str| - i
    {
      var res := f.check(str, i);
      if res.Invalid? {
        return false;
      }
      i := i + res.offset;
    }
    return true;
  }

  method ToUtf32(str: seq<bv8>) returns (out: seq<bv32>)
    ensures out == Decode(UTF8, str, 0)
  {
    out := [];
    var i: nat := 0;
    while i < |str|
      invariant 0 <= i <= |str| && Decode(UTF8, str, 0) == out + Decode(UTF8, str, i)
      decreases |str| - i
    {
      var pt, next, _ := DecodeOne(UTF8, str, i, false);
      DecodeNext(UTF8, str, i, out);
      out := out + [pt];
      i := next;
    }
  }

  method ToUtf16(str: seq<bv8>) returns (out: seq<bv16>)
    ensures out == EncodeAll(UTF16, Decode(UTF8, str, 0))
  {
    var end;
    out, end := Convert(UTF8, UTF16, str);
  }

  method ToUtf8(str: seq<bv16>) returns (out: seq<bv8>)
    ensures out == EncodeAll(UTF8, Decode(UTF16, str, 0))
  {
    var end;
    out, end := Convert(UTF16, UTF8, str);
  }

  method Utf32ToUtf8(str: seq<bv32>) returns (out: seq<bv8>)
    ensures out == EncodeAll(UTF8, str)
  {
    out := [];
    for i := 0 to |str|
      invariant out == EncodeAll(UTF8, str[..i])
    {
      EncodeAllAppend(UTF8, str[..i], str[i]);
      assert str[..i + 1] == str[..i] + [str[i]];
      out := out + Encode8(str[i]);
    }
    assert str[..|str|] == str;
  }

  method Utf8Check(str: seq<bv8>) returns (ok: bool)
    ensures ok <==> exists u :: All(InRange, u) && str == EncodeAll(UTF8, u)
  {
    ok := CheckHelper(UTF8, str);
    Utf8Lawful();
    WellFormedIffEncoding(UTF8, InRange, str);
  }

  method Utf16Check(str: seq<bv16>) returns (ok: bool)
    ensures ok <==> exists u :: All(IsScalar, u) && str == EncodeAll(UTF16, u)
  {
    ok := CheckHelper(UTF16, str);
    Utf16Lawful();
    WellFormedIffEncoding(UTF16, IsScalar, str);
  }

  method Utf32Check(str: seq<bv32>) returns (ok: bool)
    ensures ok == All(InRange, str)
  {
    ok := CheckHelper(UTF32, str);
    WellFormed32(str, 0);
  }

  lemma {:induction false} WellFormed32(s: seq<bv32>, i: nat)
    requires i <= |s|
    ensures InBounds(UTF32, s) && (WellFormed(UTF32, s, i) <==> forall k :: i <= k < |s| ==> InRange(s[k]))
    decreases |s| - i
  {
    if i < |s| { WellFormed32(s, i + 1); }
  }
}
