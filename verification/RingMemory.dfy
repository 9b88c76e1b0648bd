/** The data area of the ring buffer seen through its double mapping: byte i, for any position i, is
    the byte at i modulo the size of the area. */
module RingMemory {
  import opened Words

  type Memory = seq<Byte>

  function ReadAt(mem: Memory, p: nat, len: nat): (r: seq<Byte>)
    requires |mem| > 0
    ensures |r| == len
  {
    seq(len, j requires 0 <= j < len => mem[(p + j) % |mem|])
  }

  function WriteAt(mem: Memory, p: nat, bs: seq<Byte>): (r: Memory)
    requires |mem| > 0
    ensures |r| == |mem|
  {
    seq(|mem|, x requires 0 <= x < |mem| => var j := (x - p) % |mem|; if j < |bs| then bs[j] else mem[x])
  }

  function Splice(s: seq<Byte>, off: nat, bs: seq<Byte>): (r: seq<Byte>)
    requires off + |bs| <= |s|
    ensures |r| == |s|
  {
    s[..off] + bs + s[off + |bs|..]
  }

  // The address of position p + j, measured from p, is j.
  lemma Distance(d: nat, p: nat, q: nat, j: int)
    requires d > 0 && 0 <= j < d && (q == p + j || q + d == p + j)
    ensures (q % d - p) % d == j
  {
    var k := q / d;
    assert q == k * d + q % d;
    if q == p + j {
      assert q % d - p == (-k) * d + j;
      DivUnique(q % d - p, d, -k, j);
    } else {
      assert q % d - p == (-k - 1) * d + j;
      DivUnique(q % d - p, d, -k - 1, j);
    }
  }

  lemma ModAdd(d: nat, p: nat, j: nat)
    requires d > 0
    ensures (p % d + j) % d == (p + j) % d
  {
    var k, m := p / d, (p % d + j) / d;
    assert p == k * d + p % d;
    assert p % d + j == m * d + (p % d + j) % d;
    assert p + j == (k + m) * d + (p % d + j) % d;
    DivUnique(p + j, d, k + m, (p % d + j) % d);
  }

  lemma ModSub(d: nat, p: nat, x: int)
    requires d > 0
    ensures (x - p % d) % d == (x - p) % d
  {
    var k, m := p / d, (x - p) / d;
    assert p == k * d + p % d;
    assert x - p == m * d + (x - p) % d;
    assert x - p % d == (k + m) * d + (x - p) % d;
    DivUnique(x - p % d, d, k + m, (x - p) % d);
  }

  // Addressing through the mask or by the full position is the same.
  lemma ReadWrapped(mem: Memory, p: nat, off: nat, len: nat)
    requires |mem| > 0
    ensures ReadAt(mem, p % |mem| + off, len) == ReadAt(mem, p + off, len)
  {
    var a, b := ReadAt(mem, p % |mem| + off, len), ReadAt(mem, p + off, len);
    forall j: nat | j < len ensures a[j] == b[j] {
      ModAdd(|mem|, p, off + j);
    }
  }

  lemma WriteWrapped(mem: Memory, p: nat, off: nat, bs: seq<Byte>)
    requires |mem| > 0
    ensures WriteAt(mem, p % |mem| + off, bs) == WriteAt(mem, p + off, bs)
  {
    var a, b := WriteAt(mem, p % |mem| + off, bs), WriteAt(mem, p + off, bs);
    forall x: nat | x < |mem| ensures a[x] == b[x] {
      ModSub(|mem|, p, x - off);
    }
  }

  // The byte at position q after a write at p, when q is j bytes past p within one lap.
  lemma WrittenByte(mem: Memory, p: nat, bs: seq<Byte>, q: nat, j: nat)
    requires |mem| > 0 && j < |mem| && (q == p + j || q + |mem| == p + j)
    ensures WriteAt(mem, p, bs)[q % |mem|] == if j < |bs| then bs[j] else mem[q % |mem|]
  {
    Distance(|mem|, p, q, j);
  }

  // A write inside a region of at most the whole area is read back as a splice.
  lemma ReadSplice(mem: Memory, p: nat, len: nat, off: nat, bs: seq<Byte>)
    requires 0 < |mem| && len <= |mem| && off + |bs| <= len
    ensures ReadAt(WriteAt(mem, p + off, bs), p, len) == Splice(ReadAt(mem, p, len), off, bs)
  {
    var a, b := ReadAt(WriteAt(mem, p + off, bs), p, len), Splice(ReadAt(mem, p, len), off, bs);
    forall j: nat | j < len ensures a[j] == b[j] {
      WrittenByte(mem, p + off, bs, p + j, if off <= j then j - off else |mem| + j - off);
      assert a[j] == WriteAt(mem, p + off, bs)[(p + j) % |mem|];
    }
  }

  lemma ReadBack(mem: Memory, p: nat, bs: seq<Byte>)
    requires 0 < |mem| && |bs| <= |mem|
    ensures ReadAt(WriteAt(mem, p, bs), p, |bs|) == bs
  {
    var a := ReadAt(WriteAt(mem, p, bs), p, |bs|);
    forall j: nat | j < |bs| ensures a[j] == bs[j] {
      WrittenByte(mem, p, bs, p + j, j);
    }
  }

  // Writes to one region do not show in another one that lies beside it within one lap.
  lemma ReadOther(mem: Memory, p: nat, bs: seq<Byte>, q: nat, len: nat)
    requires |mem| > 0
    requires (p + |bs| <= q && q + len <= p + |mem|) || (q + len <= p && p + |bs| <= q + |mem|)
    ensures ReadAt(WriteAt(mem, p, bs), q, len) == ReadAt(mem, q, len)
  {
    var a, b := ReadAt(WriteAt(mem, p, bs), q, len), ReadAt(mem, q, len);
    forall j: nat | j < len ensures a[j] == b[j] {
      WrittenByte(mem, p, bs, q + j, if p + |bs| <= q then q + j - p else q + j + |mem| - p);
      assert a[j] == WriteAt(mem, p, bs)[(q + j) % |mem|];
    }
  }

  lemma WriteOneMore(mem: Memory, p: nat, bs: seq<Byte>, j: nat)
    requires 0 < |mem| && j < |bs| <= |mem|
    ensures WriteAt(mem, p, bs[..j + 1]) == WriteAt(mem, p, bs[..j])[(p + j) % |mem| := bs[j]]
  {
    var a, b := WriteAt(mem, p, bs[..j + 1]), WriteAt(mem, p, bs[..j])[(p + j) % |mem| := bs[j]];
    Distance(|mem|, p, p + j, j);
    forall x: nat | x < |mem| ensures a[x] == b[x] {
      var d := (x - p) % |mem|;
      if d == j { SameAddress(|mem|, p, x, j); }
    }
  }

  lemma SameAddress(d: nat, p: nat, x: nat, j: nat)
    requires 0 < d && x < d && (x - p) % d == j
    ensures x == (p + j) % d
  {
    var k := (x - p) / d;
    assert x - p == k * d + j;
    assert p + j == (-k) * d + x;
    DivUnique(p + j, d, -k, x);
  }
}
