/** Node names: byte strings, in the order Go compares strings by. */
module Names {
  import opened Words

  type Name = seq<Byte>

  predicate Less(a: Name, b: Name) {
    if b == [] then false
    else if a == [] then true
    else a[0] < b[0] || (a[0] == b[0] && Less(a[1..], b[1..]))
  }

  // The two names agree before i, where a ends before b or has the smaller byte.
  predicate DiffersAt(a: Name, b: Name, i: nat) {
    i <= |a| && i < |b| && a[..i] == b[..i] && (i < |a| ==> a[i] < b[i])
  }

  /** A name comes before another exactly when it has the smaller byte where they first differ, or is a proper prefix of
      it. */
  lemma {:induction false} LessExactly(a: Name, b: Name)
    ensures Less(a, b) <==> exists i: nat :: DiffersAt(a, b, i)
    decreases |a|
  {
    if a == [] || b == [] || a[0] != b[0] {
      if Less(a, b) { assert DiffersAt(a, b, 0); }
      if i: nat :| DiffersAt(a, b, i) { SameFirst(a, b, i); }
    } else {
      LessExactly(a[1..], b[1..]);
      if i: nat :| DiffersAt(a[1..], b[1..], i) { DiffersLater(a, b, i); }
      if i: nat :| DiffersAt(a, b, i) { DiffersSooner(a, b, i); }
    }
  }

  lemma SameFirst(a: Name, b: Name, i: nat)
    requires DiffersAt(a, b, i)
    ensures i > 0 ==> a != [] && b != [] && a[0] == b[0]
  {
    if i > 0 { assert a[..i][0] == a[0] && b[..i][0] == b[0]; }
  }

  lemma DiffersLater(a: Name, b: Name, i: nat)
    requires a != [] && b != [] && a[0] == b[0] && DiffersAt(a[1..], b[1..], i)
    ensures DiffersAt(a, b, i + 1)
  {
    assert a[..i + 1] == [a[0]] + a[1..][..i] && b[..i + 1] == [b[0]] + b[1..][..i];
  }

  lemma DiffersSooner(a: Name, b: Name, i: nat)
    requires a != [] && b != [] && a[0] == b[0] && DiffersAt(a, b, i)
    ensures i > 0 && DiffersAt(a[1..], b[1..], i - 1)
  {
    assert a[1..][..i - 1] == a[..i][1..] && b[1..][..i - 1] == b[..i][1..];
  }

  lemma {:induction false} LessIrreflexive(a: Name)
    ensures !Less(a, a)
  {
    if a != [] { LessIrreflexive(a[1..]); }
  }

  lemma {:induction false} LessTransitive(a: Name, b: Name, c: Name)
    requires Less(a, b) && Less(b, c)
    ensures Less(a, c)
  {
    if a != [] && a[0] == b[0] && b[0] == c[0] { LessTransitive(a[1..], b[1..], c[1..]); }
  }

  lemma {:induction false} LessTotal(a: Name, b: Name)
    ensures Less(a, b) || a == b || Less(b, a)
  {
    if a != [] && b != [] && a[0] == b[0] {
      LessTotal(a[1..], b[1..]);
      if a[1..] == b[1..] {
        assert a == [a[0]] + a[1..] && b == [b[0]] + b[1..];
      }
    }
  }
}
