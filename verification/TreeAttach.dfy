/** Decoding as attaching trees one after the other, repeated sibling names included: what this changes. */
module TreeAttach {
  import opened Collections
  import opened Words
  import opened Names
  import opened TreeStore
  import opened TreeInsert
  import opened TreeDecode
  import opened TreeRoundTrip

  ghost predicate Fits(vs: seq<Value>)
    decreases vs
  {
    forall k :: 0 <= k < |vs| ==> FieldsFit(vs[k]) && Fits(vs[k].kids)
  }

  // --- Decoding is attaching ---

  /** The store after the trees vs have been attached under node n, one after the other. */
  ghost function AttachAll(st: Store, n: nat, vs: seq<Value>): (r: Store)
    requires Shaped(st) && n < |st|
    ensures Shaped(r) && |st| <= |r|
    decreases vs
  {
    if vs == [] then st
    else
      var (st1, d) := AttachLast(st, n, vs);
      AttachAll(st1, d, vs[|vs| - 1].kids)
  }

  // The store, and the node for the last tree, before the children of that tree are attached.
  ghost function AttachLast(st: Store, n: nat, vs: seq<Value>): (r: (Store, nat))
    requires Shaped(st) && n < |st| && vs != []
    ensures Shaped(r.0) && |st| <= |r.0| && r.1 < |r.0|
    decreases vs, 0
  {
    var last := |vs| - 1;
    var st0 := AttachAll(st, n, vs[..last]);
    AttachShaped(st0, n, vs[last].name, vs[last].self);
    Attach(st0, n, vs[last].name, vs[last].self)
  }

  lemma RepeatMore(q: nat, k: nat, rest: seq<nat>)
    ensures Repeat(q, k + 1) + rest == Repeat(q, k) + ([q] + rest)
  {
  }

  lemma {:induction false} EncodeLast(vs: seq<Value>, tail: seq<Byte>)
    requires vs != []
    ensures var last := |vs| - 1; EncodeAll(vs) + tail == EncodeAll(vs[..last]) + (Encode(vs[last]) + tail)
  {
    var last := |vs| - 1;
    var w := vs[last];
    SplitLast(vs);
    EncodeAllConcat(vs[..last], [w]);
    EncodeOne(w);
    Assoc(EncodeAll(vs[..last]), Encode(w), tail);
  }

  lemma {:induction false} EncodeOne(w: Value)
    ensures EncodeAll([w]) == Encode(w)
  {
    assert [w][1..] == [];
    assert EncodeAll([]) == [];
  }

  /** Reading the encodings of vs, for which node q waits, attaches vs under q. */
  lemma {:induction false} RunAttaches(b: seq<Byte>, s: Progress, q: nat, vs: seq<Value>, rest: seq<nat>,
                                       tail: seq<Byte>)
    returns (o: nat)
    requires Ready(b, s) && Fits(vs) && q < |s.st| && s.parents == Repeat(q, |vs|) + rest
    requires b[s.offset..] == EncodeAll(vs) + tail
    ensures var s' := Progress(AttachAll(s.st, q, vs), rest, o); Ready(b, s') && Run(b, s) == Run(b, s')
    ensures o <= |b| && b[o..] == tail
    decreases vs
  {
    if vs == [] {
      o := s.offset;
      assert s.parents == rest;
    } else {
      var last := |vs| - 1;
      var w := vs[last];
      RepeatMore(q, last, rest);
      EncodeLast(vs, tail);
      var o1 := RunAttaches(b, s, q, vs[..last], [q] + rest, Encode(w) + tail);
      var s1 := Progress(AttachAll(s.st, q, vs[..last]), [q] + rest, o1);
      var o3 := ReadEncoded(b, s1, w, tail);
      var (st1, d) := AttachLast(s.st, q, vs);
      var s2 := Progress(st1, Repeat(d, |w.kids|) + rest, o3);
      assert s1.parents[1..] == rest;
      RunStep(b, s1, s2);
      o := RunAttaches(b, s2, d, w.kids, rest, tail);
    }
  }

  // --- What attaching changes ---

  // Parents come before their children, and every child list names children of its own node.
  ghost predicate Sound(st: Store) {
    Shaped(st) && forall k, i :: 0 <= k < |st| && 0 <= i < |st[k].children| ==> Owns(st, k, st[k].children[i])
  }

  ghost predicate Owns(st: Store, k: nat, c: nat) {
    0 < c < |st| && st[c].parent == k
  }

  ghost predicate HasChild(st: Store, n: nat, c: nat) {
    n < |st| && c in st[n].children
  }

  ghost function KidsTotal(st: Store, n: nat): int
    requires Shaped(st) && n < |st|
  {
    assert SortedNames(st, st[n].children);
    SumTotals(st, st[n].children)
  }

  lemma ChildrenDistinct(st: Store, n: nat)
    requires Shaped(st) && n < |st|
    ensures Distinct(st[n].children)
  {
    var ch := st[n].children;
    assert SortedNames(st, ch);
    forall i, j | 0 <= i < j < |ch| ensures ch[i] != ch[j] { LessIrreflexive(st[ch[i]].name); }
  }

  // The chain of n holds none of its children.
  lemma ChildOffChain(st: Store, n: nat, c: nat)
    requires Sound(st) && n < |st| && HasChild(st, n, c)
    ensures n < c < |st| && st[c].parent == n && c !in Chain(st, n)
  {
    var i :| 0 <= i < |st[n].children| && st[n].children[i] == c;
    assert Owns(st, n, st[n].children[i]);
  }

  // Nodes other than d: x more in the totals of the chain, a new child list only for n.
  ghost predicate Heavier(st: Store, st': Store, n: nat, x: int, k: nat)
    requires Shaped(st) && n < |st| && k < |st| && k < |st'|
  {
    && st'[k] == st[k].(total := st'[k].total, children := st'[k].children)
    && st'[k].total == st[k].total + (if k in Chain(st, n) then x else 0)
    && (k != n ==> st'[k].children == st[k].children)
  }

  /** What attaching a node of that name and weight under n gives: d is that node, a leaf now. */
  ghost predicate Attached(st: Store, st': Store, n: nat, d: nat, name: Name, x: int) {
    && Sound(st) && Sound(st') && n < |st| <= |st'| <= |st| + 1 && d < |st'|
    && st'[d].parent == n && st'[d].children == [] && st'[d].self == x && st'[d].name == name
    && st'[d].total == x + (if d < |st| then st[d].total else 0)
    && (forall k :: 0 <= k < |st| && k != d ==> Heavier(st, st', n, x, k))
    && KidsTotal(st', n) == KidsTotal(st, n) + x
    && (forall c: nat :: HasChild(st', n, c) <==> HasChild(st, n, c) || c == d)
    && (d < |st| ==> |st'| == |st| && HasChild(st, n, d) && st[d].name == name)
    && (d >= |st| ==> forall c: nat :: HasChild(st, n, c) ==> c < |st| && st[c].name != name)
  }

  lemma AttachRepeatedIs(st: Store, n: nat, name: Name, x: nat, i: nat)
    requires Sound(st) && n < |st| && x < 0x8000_0000_0000_0000
    requires i < |st[n].children| && st[st[n].children[i]].name == name
    ensures var (st', d) := Attach(st, n, name, x); Attached(st, st', n, d, name, x)
  {
    AttachRepeated(st, n, name, x, i);
    var (st', d) := Attach(st, n, name, x);
    assert HasChild(st, n, d);
    ChildOffChain(st, n, d);
    RepeatedAttached(st, st', n, d, name, x);
  }

  lemma RepeatedAttached(st: Store, st': Store, n: nat, d: nat, name: Name, x: nat)
    requires Sound(st) && Shaped(st') && n < d < |st| == |st'| && HasChild(st, n, d) && st[d].name == name
    requires st'[d] == st[d].(self := x, total := st[d].total + x, children := [])
    requires forall k :: 0 <= k < |st| && k != d ==>
               && st'[k] == st[k].(total := st'[k].total)
               && st'[k].total == st[k].total + (if k in Chain(st, n) then x else 0)
    ensures Attached(st, st', n, d, name, x)
  {
    ChildOffChain(st, n, d);
    forall k, j | 0 <= k < |st'| && 0 <= j < |st'[k].children| ensures Owns(st', k, st'[k].children[j]) {
      assert Owns(st, k, st[k].children[j]);
    }
    forall k | 0 <= k < |st| && k != d ensures Heavier(st, st', n, x, k) {}
    forall c: nat | HasChild(st, n, c) && c != d ensures c < |st| && st'[c].total == st[c].total {
      ChildOffChain(st, n, c);
    }
    ChildBumped(st, st', n, d);
  }

  // Only the total of child d has changed.
  lemma ChildBumped(st: Store, st': Store, n: nat, d: nat)
    requires Sound(st) && Shaped(st') && n < |st| <= |st'| && HasChild(st, n, d) && st'[n].children == st[n].children
    requires forall c: nat :: HasChild(st, n, c) && c < |st| && c != d ==> st'[c].total == st[c].total
    ensures d < |st| && KidsTotal(st', n) == KidsTotal(st, n) + st'[d].total - st[d].total
  {
    ChildrenDistinct(st, n);
    ChildOffChain(st, n, d);
    assert SortedNames(st, st[n].children);
    SumTotalsBump(st, st', st[n].children, d);
  }

  lemma AttachFreshIs(st: Store, n: nat, name: Name, x: nat)
    requires Sound(st) && n < |st| && x < 0x8000_0000_0000_0000
    requires forall k :: 0 <= k < |st[n].children| ==> st[st[n].children[k]].name != name
    ensures var (st', d) := Attach(st, n, name, x); Attached(st, st', n, d, name, x)
  {
    var i := AttachFresh(st, n, name, x);
    var (st', d) := Attach(st, n, name, x);
    FreshAttached(st, st', n, name, x, i);
  }

  lemma FreshAttached(st: Store, st': Store, n: nat, name: Name, x: nat, i: nat)
    requires Sound(st) && Shaped(st') && n < |st| && |st'| == |st| + 1 && i <= |st[n].children|
    requires forall k :: 0 <= k < |st[n].children| ==>
               st[n].children[k] < |st| && st[st[n].children[k]].name != name
    requires st'[|st|] == Node(n, [], x, x, name, st[n].depth + 1)
    requires st'[n].children == st[n].children[..i] + [|st|] + st[n].children[i..]
    requires forall k :: 0 <= k < |st| ==>
               && st'[k] == st[k].(total := st'[k].total, children := st'[k].children)
               && (k != n ==> st'[k].children == st[k].children)
               && st'[k].total == st[k].total + (if k in Chain(st, n) then x else 0)
    ensures Attached(st, st', n, |st|, name, x)
  {
    var d := |st|;
    forall k | 0 <= k < |st| ensures Heavier(st, st', n, x, k) {}
    FreshSound(st, st', n, d, i);
    InsertedMembers(st[n].children, i, d);
    forall c: nat | HasChild(st, n, c) ensures c < |st| && st[c].name != name && st'[c].total == st[c].total {
      FreshSibling(st, st', n, name, x, c);
    }
    ChildAdded(st, st', n, i, d);
  }

  lemma FreshSibling(st: Store, st': Store, n: nat, name: Name, x: int, c: nat)
    requires Sound(st) && n < |st| <= |st'| && HasChild(st, n, c) && (c < |st| ==> Heavier(st, st', n, x, c))
    requires forall k :: 0 <= k < |st[n].children| ==>
               st[n].children[k] < |st| && st[st[n].children[k]].name != name
    ensures c < |st| && st[c].name != name && st'[c].total == st[c].total
  {
    ChildOffChain(st, n, c);
  }

  lemma FreshSound(st: Store, st': Store, n: nat, d: nat, i: nat)
    requires Sound(st) && Shaped(st') && n < |st| && |st'| == |st| + 1 && d == |st| && i <= |st[n].children|
    requires st'[d].parent == n && st'[d].children == []
    requires st'[n].children == st[n].children[..i] + [d] + st[n].children[i..]
    requires forall m :: 0 <= m < |st| ==>
               st'[m].parent == st[m].parent && (m != n ==> st'[m].children == st[m].children)
    ensures Sound(st')
  {
    forall k, j | 0 <= k < |st'| && 0 <= j < |st'[k].children| ensures Owns(st', k, st'[k].children[j]) {
      FreshOwns(st, st', n, d, i, k, j);
    }
  }

  lemma ChildAdded(st: Store, st': Store, n: nat, i: nat, d: nat)
    requires Shaped(st) && Shaped(st') && n < |st| <= |st'| && d < |st'| && i <= |st[n].children|
    requires st'[n].children == st[n].children[..i] + [d] + st[n].children[i..]
    requires forall c: nat :: HasChild(st, n, c) ==> c < |st| && st'[c].total == st[c].total
    ensures KidsTotal(st', n) == KidsTotal(st, n) + st'[d].total
  {
    var ch := st[n].children;
    var a, b := ch[..i], ch[i..];
    assert ch == a + b;
    forall k | 0 <= k < |ch| ensures ch[k] < |st| && st'[ch[k]].total == st[ch[k]].total {
      assert HasChild(st, n, ch[k]);
    }
    SumTotalsSame(st, st', ch);
    SumTotalsConcat(st', a, b);
    SumTotalsConcat(st', a, [d]);
    SumTotalsConcat(st', a + [d], b);
  }

  lemma FreshOwns(st: Store, st': Store, n: nat, d: nat, i: nat, k: nat, j: nat)
    requires Sound(st) && n < |st| && |st'| == |st| + 1 && d == |st| && i <= |st[n].children|
    requires st'[d].parent == n && st'[d].children == []
    requires st'[n].children == st[n].children[..i] + [d] + st[n].children[i..]
    requires forall m :: 0 <= m < |st| ==>
               st'[m].parent == st[m].parent && (m != n ==> st'[m].children == st[m].children)
    requires k < |st'| && j < |st'[k].children|
    ensures Owns(st', k, st'[k].children[j])
  {
    if k == n {
      if j < i { assert Owns(st, n, st[n].children[j]); }
      else if j > i { assert Owns(st, n, st[n].children[j - 1]); }
    } else if k < |st| {
      assert Owns(st, k, st[k].children[j]);
    }
  }

  lemma AttachIs(st: Store, n: nat, name: Name, x: nat)
    requires Sound(st) && n < |st| && x < 0x8000_0000_0000_0000
    ensures var (st', d) := Attach(st, n, name, x); Attached(st, st', n, d, name, x)
  {
    if i: nat :| i < |st[n].children| && st[st[n].children[i]].name == name {
      AttachRepeatedIs(st, n, name, x, i);
    } else {
      AttachFreshIs(st, n, name, x);
    }
  }

  // --- What attaching trees changes ---

  // All of n's children are at base or above.
  ghost predicate KidsFrom(st: Store, n: nat, base: nat) {
    forall c: nat :: HasChild(st, n, c) ==> base <= c
  }

  /** The nodes below base have x more in the totals of n's chain, and n x more in the totals of its children. */
  ghost predicate Framed(st: Store, st': Store, n: nat, x: int, base: nat) {
    && Sound(st) && Sound(st') && n < base <= |st| <= |st'| && KidsFrom(st', n, base)
    && (forall k :: 0 <= k < base ==> Heavier(st, st', n, x, k))
    && KidsTotal(st', n) == KidsTotal(st, n) + x
  }

  lemma FrameTrans(st: Store, st1: Store, st2: Store, n: nat, x: int, y: int, base: nat)
    requires Framed(st, st1, n, x, base) && Framed(st1, st2, n, y, base)
    ensures Framed(st, st2, n, x + y, base)
  {
    var z := x + y;
    HeavierChain(st, st1, n, x, base);
    forall k | 0 <= k < base ensures Heavier(st, st2, n, z, k) {
      assert Heavier(st, st1, n, x, k) && Heavier(st1, st2, n, y, k);
    }
  }

  lemma HeavierChain(st: Store, st': Store, n: nat, x: int, base: nat)
    requires Shaped(st) && Shaped(st') && n < base <= |st| <= |st'|
    requires forall k :: 0 <= k < base ==> Heavier(st, st', n, x, k)
    ensures Chain(st', n) == Chain(st, n)
  {
    forall k | 0 < k <= n ensures st'[k].parent == st[k].parent { assert Heavier(st, st', n, x, k); }
    ChainSame(st, st', n);
  }

  lemma AttachedFramed(st: Store, st': Store, n: nat, d: nat, name: Name, x: int, base: nat)
    requires Attached(st, st', n, d, name, x) && n < base <= |st| && KidsFrom(st, n, base)
    ensures base <= d && Framed(st, st', n, x, base)
  {
  }

  // What is attached below the child d is attached below n.
  lemma BelowFramed(st: Store, st': Store, n: nat, d: nat, x: int, base: nat)
    requires Framed(st, st', d, x, |st|) && n < base <= d && HasChild(st, n, d) && KidsFrom(st, n, base)
    ensures Framed(st, st', n, x, base)
  {
    ChildOffChain(st, n, d);
    assert Chain(st, d) == {d} + Chain(st, n);
    forall k | 0 <= k < |st| && k != d ensures Heavier(st, st', n, x, k) {
      assert Heavier(st, st', d, x, k);
    }
    assert Heavier(st, st', d, x, n) && Heavier(st, st', d, x, d);
    forall c: nat | HasChild(st, n, c) && c < |st| && c != d ensures st'[c].total == st[c].total {
      ChildOffChain(st, n, c);
      assert Heavier(st, st', d, x, c);
    }
    ChildBumped(st, st', n, d);
    forall c: nat | HasChild(st', n, c) ensures base <= c { assert HasChild(st, n, c); }
  }

  lemma {:induction false} OneFramed(st: Store, st1: Store, st2: Store, n: nat, d: nat, w: Value, base: nat)
    requires Attached(st, st1, n, d, w.name, w.self) && n < base <= |st| && KidsFrom(st, n, base)
    requires Framed(st1, st2, d, ValueTotals(w.kids), |st1|)
    ensures base <= d && Framed(st, st2, n, ValueTotal(w), base)
  {
    AttachedFramed(st, st1, n, d, w.name, w.self, base);
    BelowFramed(st1, st2, n, d, ValueTotals(w.kids), base);
    FrameTrans(st, st1, st2, n, w.self, ValueTotals(w.kids), base);
  }

  lemma {:induction false} TotalsLast(vs: seq<Value>)
    requires vs != []
    ensures var last := |vs| - 1; ValueTotals(vs) == ValueTotals(vs[..last]) + ValueTotal(vs[last])
  {
    var last := |vs| - 1;
    SplitLast(vs);
    TotalsInserted(vs[..last], vs[last], []);
    assert vs[..last] + [vs[last]] + [] == vs && vs[..last] + [] == vs[..last];
  }

  lemma {:induction false} AllFramed(st: Store, n: nat, vs: seq<Value>, base: nat)
    requires Sound(st) && n < base <= |st| && KidsFrom(st, n, base) && Fits(vs)
    ensures Framed(st, AttachAll(st, n, vs), n, ValueTotals(vs), base)
    decreases vs
  {
    if vs == [] {
      NothingFramed(st, n, base);
    } else {
      var last := |vs| - 1;
      var w := vs[last];
      var st0, st1, d := LastAttached(st, n, vs);
      AllFramed(st, n, vs[..last], base);
      AttachIs(st0, n, w.name, w.self);
      AllFramed(st1, d, w.kids, |st1|);
      TotalsLast(vs);
      LastFramed(st, st0, st1, AttachAll(st, n, vs), n, d, ValueTotals(vs[..last]), w, ValueTotals(vs), base);
    }
  }

  lemma NothingFramed(st: Store, n: nat, base: nat)
    requires Sound(st) && n < base <= |st| && KidsFrom(st, n, base)
    ensures Framed(st, st, n, 0, base)
  {
    assert forall k :: 0 <= k < base ==> Heavier(st, st, n, 0, k);
  }

  // The last of the trees: the store before it, and the node for it.
  lemma {:induction false} LastAttached(st: Store, n: nat, vs: seq<Value>) returns (st0: Store, st1: Store, d: nat)
    requires Shaped(st) && n < |st| && vs != []
    ensures var w := vs[|vs| - 1];
            && st0 == AttachAll(st, n, vs[..|vs| - 1]) && (st1, d) == Attach(st0, n, w.name, w.self)
            && Shaped(st1) && d < |st1| && AttachAll(st, n, vs) == AttachAll(st1, d, w.kids)
  {
    st0 := AttachAll(st, n, vs[..|vs| - 1]);
    var (st2, d2) := AttachLast(st, n, vs);
    st1, d := st2, d2;
  }

  lemma {:induction false} LastFramed(st: Store, st0: Store, st1: Store, st2: Store, n: nat, d: nat, x: int, w: Value,
                                      y: int, base: nat)
    requires Framed(st, st0, n, x, base) && Attached(st0, st1, n, d, w.name, w.self)
    requires Framed(st1, st2, d, ValueTotals(w.kids), |st1|) && y == x + ValueTotal(w)
    ensures Framed(st, st2, n, y, base)
  {
    OneFramed(st0, st1, st2, n, d, w, base);
    FrameTrans(st, st0, st2, n, x, ValueTotal(w), base);
  }
}
