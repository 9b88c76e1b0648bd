/** When a decoded tree keeps the total law: what a repeated sibling name leaves behind. */
module TreeTotals {
  import opened Collections
  import opened Words
  import opened Names
  import opened TreeStore
  import opened TreeDecode
  import opened TreeRoundTrip
  import opened TreeAttach

  // --- The total law, node by node ---

  // What the total of a node has beyond its self weight and the totals of its children.
  ghost function Excess(st: Store, n: nat): int
    requires Shaped(st) && n < |st|
  {
    st[n].total - st[n].self - KidsTotal(st, n)
  }

  // The law at every node that can be reached from n, n aside.
  ghost predicate LawBelow(st: Store, n: nat)
    requires Sound(st) && n < |st|
    decreases |st| - n
  {
    forall c: nat :: HasChild(st, n, c) && Owns(st, n, c) ==> Excess(st, c) == 0 && LawBelow(st, c)
  }

  // Nothing but d and the nodes up to n differs; so nothing differs below another child of n.
  lemma {:induction false} LawSame(st: Store, st': Store, n: nat, d: nat, c: nat)
    requires Sound(st) && Sound(st') && |st| <= |st'| && n < c < |st| && c != d && (d < |st| ==> st[d].parent == n)
    requires forall k: nat :: n < k < |st| && k != d ==> st'[k] == st[k]
    ensures Excess(st', c) == Excess(st, c) && (LawBelow(st', c) <==> LawBelow(st, c))
    decreases |st| - c
  {
    forall b: nat | HasChild(st, c, b)
      ensures Owns(st, c, b) && Owns(st', c, b) && b != d && Excess(st', b) == Excess(st, b)
      ensures LawBelow(st', b) <==> LawBelow(st, b)
    {
      ChildOffChain(st, c, b);
      LawSame(st, st', n, d, b);
    }
    var ch := st[c].children;
    forall k | 0 <= k < |ch| ensures ch[k] < |st| && st'[ch[k]].total == st[ch[k]].total {
      assert HasChild(st, c, ch[k]);
    }
    SumTotalsSame(st, st', ch);
    assert forall b: nat :: HasChild(st', c, b) <==> HasChild(st, c, b);
  }

  // --- Names ---

  // What all trees of that name weigh, and all but the last of them.
  ghost function Held(vs: seq<Value>, name: Name): nat {
    if vs == [] then 0
    else var last := |vs| - 1; Held(vs[..last], name) + if vs[last].name == name then ValueTotal(vs[last]) else 0
  }

  ghost function Behind(vs: seq<Value>, name: Name): nat {
    if vs == [] then 0
    else
      var last := |vs| - 1;
      if vs[last].name == name then Held(vs[..last], name) else Behind(vs[..last], name)
  }

  /** Of siblings with one name all but the last weigh nothing, here and below. */
  ghost predicate Harmless(vs: seq<Value>)
    decreases vs
  {
    && (forall i, j :: 0 <= i < j < |vs| && vs[i].name == vs[j].name ==> ValueTotal(vs[i]) == 0)
    && (forall i :: 0 <= i < |vs| ==> Harmless(vs[i].kids))
  }

  ghost predicate LastHarmless(vs: seq<Value>, name: Name) {
    vs != [] ==>
      var last := |vs| - 1;
      if vs[last].name == name then Harmless(vs[last].kids) else LastHarmless(vs[..last], name)
  }

  lemma {:induction false} HeldZero(vs: seq<Value>, name: Name)
    ensures Held(vs, name) == 0 <==> forall i :: 0 <= i < |vs| && vs[i].name == name ==> ValueTotal(vs[i]) == 0
  {
    if vs != [] { HeldZero(vs[..|vs| - 1], name); }
  }

  lemma {:induction false} BehindZero(vs: seq<Value>, name: Name)
    ensures Behind(vs, name) == 0 <==>
            forall i, j :: 0 <= i < j < |vs| && vs[i].name == vs[j].name == name ==> ValueTotal(vs[i]) == 0
  {
    if vs != [] {
      var last := |vs| - 1;
      BehindZero(vs[..last], name);
      HeldZero(vs[..last], name);
    }
  }

  // Where nothing weighs anything, nothing can be left behind.
  lemma {:induction false} ZeroHarmless(vs: seq<Value>)
    requires ValueTotals(vs) == 0
    ensures Harmless(vs)
    decreases vs
  {
    forall i | 0 <= i < |vs| ensures ValueTotal(vs[i]) == 0 && Harmless(vs[i].kids) {
      PartOfTotals(vs, i);
      ZeroHarmless(vs[i].kids);
    }
  }

  lemma {:induction false} PartOfTotals(vs: seq<Value>, i: nat)
    requires i < |vs|
    ensures ValueTotal(vs[i]) <= ValueTotals(vs)
  {
    if i > 0 { PartOfTotals(vs[1..], i - 1); }
  }

  lemma {:induction false} LastHarmlessIs(vs: seq<Value>, name: Name, i: nat)
    requires i < |vs| && vs[i].name == name && Behind(vs, name) == 0
    ensures LastHarmless(vs, name) ==> Harmless(vs[i].kids)
    ensures (forall k :: 0 <= k < |vs| ==> Harmless(vs[k].kids)) ==> LastHarmless(vs, name)
  {
    var last := |vs| - 1;
    if vs[last].name != name {
      LastHarmlessIs(vs[..last], name, i);
    } else if i < last {
      HeldZero(vs[..last], name);
      ZeroHarmless(vs[i].kids);
    }
  }

  // Harmless, name by name.
  lemma {:induction false} HarmlessNames(vs: seq<Value>)
    ensures Harmless(vs) <==>
            forall i :: 0 <= i < |vs| ==> Behind(vs, vs[i].name) == 0 && LastHarmless(vs, vs[i].name)
  {
    forall i | 0 <= i < |vs| { BehindZero(vs, vs[i].name); }
    forall i | 0 <= i < |vs| && Behind(vs, vs[i].name) == 0
      ensures LastHarmless(vs, vs[i].name) ==> Harmless(vs[i].kids)
      ensures (forall k :: 0 <= k < |vs| ==> Harmless(vs[k].kids)) ==> LastHarmless(vs, vs[i].name)
    {
      LastHarmlessIs(vs, vs[i].name, i);
    }
  }

  // --- What decoding keeps of a list of siblings ---

  ghost predicate Has(vs: seq<Value>, name: Name) {
    exists i :: 0 <= i < |vs| && vs[i].name == name
  }

  /** Child c stands for the trees of its name: the total of them all, the rest of the last. */
  ghost predicate Tracked(st: Store, vs: seq<Value>, c: nat)
    requires Sound(st) && c < |st|
  {
    var name := st[c].name;
    && Has(vs, name) && st[c].total == Held(vs, name) && Excess(st, c) == Behind(vs, name)
    && (LawBelow(st, c) <==> LastHarmless(vs, name))
  }

  ghost predicate Tracks(st: Store, n: nat, vs: seq<Value>) {
    && Sound(st) && n < |st|
    && (forall c: nat :: HasChild(st, n, c) ==> c < |st| && Tracked(st, vs, c))
    && (forall i :: 0 <= i < |vs| ==> HasNamed(st, n, vs[i].name))
  }

  ghost predicate HasNamed(st: Store, n: nat, name: Name) {
    exists c: nat :: HasChild(st, n, c) && c < |st| && st[c].name == name
  }

  // One more tree w: st1 has its node d, st2 its children as well.
  ghost predicate OneMore(st: Store, st1: Store, st2: Store, n: nat, d: nat, w: Value) {
    && Attached(st, st1, n, d, w.name, w.self) && Framed(st1, st2, d, ValueTotals(w.kids), |st1|)
    && (LawBelow(st2, d) <==> Harmless(w.kids))
  }

  lemma {:induction false} OthersStay(st: Store, st1: Store, st2: Store, n: nat, d: nat, w: Value, k: nat)
    requires OneMore(st, st1, st2, n, d, w) && n < k < |st| && k != d
    ensures st2[k] == st[k]
  {
    assert Heavier(st, st1, n, w.self, k) && Heavier(st1, st2, d, ValueTotals(w.kids), k);
    assert Chain(st1, d) == {d} + Chain(st1, n);
  }

  lemma {:induction false} SameChildren(st: Store, st1: Store, st2: Store, n: nat, d: nat, w: Value)
    requires OneMore(st, st1, st2, n, d, w)
    ensures n < d < |st1| && st2[n].children == st1[n].children
    ensures forall c: nat :: HasChild(st2, n, c) <==> HasChild(st, n, c) || c == d
  {
    assert HasChild(st1, n, d);
    ChildOffChain(st1, n, d);
    assert Heavier(st1, st2, d, ValueTotals(w.kids), n);
    assert forall c: nat :: HasChild(st2, n, c) <==> HasChild(st1, n, c);
  }

  // The name of another child is not that of the new tree.
  lemma {:induction false} OtherName(st: Store, st1: Store, st2: Store, n: nat, d: nat, w: Value, c: nat)
    requires OneMore(st, st1, st2, n, d, w) && HasChild(st, n, c) && c != d
    ensures n < c < |st| && st[c].name != w.name
  {
    ChildOffChain(st, n, c);
    if d < |st| {
      var ch := st[n].children;
      var i :| 0 <= i < |ch| && ch[i] == c;
      var j :| 0 <= j < |ch| && ch[j] == d;
      assert SortedNames(st, ch);
      LessIrreflexive(w.name);
    }
  }

  lemma {:induction false} OtherTracked(st: Store, st1: Store, st2: Store, n: nat, d: nat, w: Value, vs: seq<Value>,
                                        c: nat)
    requires Tracks(st, n, vs) && OneMore(st, st1, st2, n, d, w) && HasChild(st, n, c) && c != d
    ensures c < |st2| && Tracked(st2, vs + [w], c)
  {
    OtherName(st, st1, st2, n, d, w, c);
    forall k: nat | n < k < |st| && k != d ensures st2[k] == st[k] { OthersStay(st, st1, st2, n, d, w, k); }
    if d < |st| { ChildOffChain(st, n, d); }
    LawSame(st, st2, n, d, c);
    OneMoreName(vs, w, st[c].name);
    assert Tracked(st, vs, c);
  }

  lemma {:induction false} OneMoreName(vs: seq<Value>, w: Value, name: Name)
    ensures Has(vs + [w], name) <==> Has(vs, name) || w.name == name
    ensures Held(vs + [w], name) == Held(vs, name) + if w.name == name then ValueTotal(w) else 0
    ensures Behind(vs + [w], name) == if w.name == name then Held(vs, name) else Behind(vs, name)
    ensures LastHarmless(vs + [w], name) <==> if w.name == name then Harmless(w.kids) else LastHarmless(vs, name)
  {
    var more := vs + [w];
    assert more[..|vs|] == vs && more[|vs|] == w;
    if w.name == name { assert more[|vs|].name == name; }
    if i :| 0 <= i < |vs| && vs[i].name == name { assert more[i].name == name; }
  }

  lemma {:induction false} HeldNone(vs: seq<Value>, name: Name)
    requires forall i :: 0 <= i < |vs| ==> vs[i].name != name
    ensures Held(vs, name) == 0
  {
    if vs != [] { HeldNone(vs[..|vs| - 1], name); }
  }

  // What the node of the new tree held before.
  lemma {:induction false} HeldBefore(st: Store, st1: Store, n: nat, d: nat, w: Value, vs: seq<Value>)
    requires Tracks(st, n, vs) && Attached(st, st1, n, d, w.name, w.self)
    ensures st1[d].total == w.self + Held(vs, w.name)
  {
    if d < |st| {
      assert Tracked(st, vs, d);
    } else {
      forall i | 0 <= i < |vs| ensures vs[i].name != w.name {
        assert HasNamed(st, n, vs[i].name);
        var c: nat :| HasChild(st, n, c) && c < |st| && st[c].name == vs[i].name;
      }
      HeldNone(vs, w.name);
    }
  }

  lemma {:induction false} NewTracked(st: Store, st1: Store, st2: Store, n: nat, d: nat, w: Value, vs: seq<Value>)
    requires Tracks(st, n, vs) && OneMore(st, st1, st2, n, d, w)
    ensures d < |st2| && Tracked(st2, vs + [w], d) && st2[d].name == w.name
  {
    SameChildren(st, st1, st2, n, d, w);
    HeldBefore(st, st1, n, d, w, vs);
    NewTotals(st1, st2, d, w, Held(vs, w.name));
    NewNamed(st2, d, w, vs);
  }

  lemma {:induction false} NewNamed(st: Store, d: nat, w: Value, vs: seq<Value>)
    requires Sound(st) && d < |st| && st[d].name == w.name && st[d].total == Held(vs, w.name) + ValueTotal(w)
    requires Excess(st, d) == Held(vs, w.name) && (LawBelow(st, d) <==> Harmless(w.kids))
    ensures Tracked(st, vs + [w], d)
  {
    OneMoreName(vs, w, w.name);
  }

  lemma {:induction false} NewTotals(st1: Store, st2: Store, d: nat, w: Value, held: int)
    requires Framed(st1, st2, d, ValueTotals(w.kids), |st1|) && d != 0 && st1[d].children == []
    requires st1[d].name == w.name && st1[d].self == w.self && st1[d].total == w.self + held
    ensures st2[d].name == w.name && st2[d].total == held + ValueTotal(w) && Excess(st2, d) == held
  {
    assert Heavier(st1, st2, d, ValueTotals(w.kids), d);
    assert d in Chain(st1, d);
    assert KidsTotal(st1, d) == 0;
  }

  lemma {:induction false} TrackStep(st: Store, st1: Store, st2: Store, n: nat, d: nat, w: Value, vs: seq<Value>)
    requires Tracks(st, n, vs) && OneMore(st, st1, st2, n, d, w)
    ensures Tracks(st2, n, vs + [w])
  {
    SameChildren(st, st1, st2, n, d, w);
    NewTracked(st, st1, st2, n, d, w, vs);
    forall c: nat | HasChild(st2, n, c) ensures c < |st2| && Tracked(st2, vs + [w], c) {
      if c != d { OtherTracked(st, st1, st2, n, d, w, vs, c); }
    }
    forall i | 0 <= i < |vs + [w]| ensures HasNamed(st2, n, (vs + [w])[i].name) {
      if i < |vs| { StillNamed(st, st1, st2, n, d, w, vs[i].name); } else { assert HasChild(st2, n, d); }
    }
  }

  lemma {:induction false} StillNamed(st: Store, st1: Store, st2: Store, n: nat, d: nat, w: Value, name: Name)
    requires OneMore(st, st1, st2, n, d, w) && HasNamed(st, n, name)
    ensures HasNamed(st2, n, name)
  {
    var c: nat :| HasChild(st, n, c) && c < |st| && st[c].name == name;
    SameChildren(st, st1, st2, n, d, w);
    ChildOffChain(st, n, c);
    assert HasChild(st2, n, c);
    if c == d {
      assert Heavier(st1, st2, d, ValueTotals(w.kids), d);
    } else {
      OthersStay(st, st1, st2, n, d, w, c);
    }
  }

  /** Decoded under a node without children, each of vs leaves what its name allows. */
  lemma {:induction false} AllTracked(st: Store, n: nat, vs: seq<Value>)
    requires Sound(st) && n < |st| && st[n].children == [] && Fits(vs)
    ensures Tracks(AttachAll(st, n, vs), n, vs)
    decreases vs
  {
    if vs != [] {
      var last := |vs| - 1;
      var w := vs[last];
      var st0, st1, d := LastAttached(st, n, vs);
      var st2 := AttachAll(st1, d, w.kids);
      AllTracked(st, n, vs[..last]);
      AttachIs(st0, n, w.name, w.self);
      AllFramed(st1, d, w.kids, |st1|);
      AllTracked(st1, d, w.kids);
      LawOfTracked(st2, d, w.kids);
      TrackStep(st0, st1, st2, n, d, w, vs[..last]);
      SplitLast(vs);
    }
  }

  lemma {:induction false} LawOfTracked(st: Store, n: nat, vs: seq<Value>)
    requires Tracks(st, n, vs)
    ensures LawBelow(st, n) <==> Harmless(vs)
  {
    HarmlessNames(vs);
    forall c: nat | HasChild(st, n, c) ensures Owns(st, n, c) { ChildOffChain(st, n, c); }
    if Harmless(vs) {
      forall c: nat | HasChild(st, n, c) ensures Excess(st, c) == 0 && LawBelow(st, c) {
        assert Tracked(st, vs, c);
        var i :| 0 <= i < |vs| && vs[i].name == st[c].name;
      }
    }
    if LawBelow(st, n) {
      forall i | 0 <= i < |vs| ensures Behind(vs, vs[i].name) == 0 && LastHarmless(vs, vs[i].name) {
        assert HasNamed(st, n, vs[i].name);
        var c: nat :| HasChild(st, n, c) && c < |st| && st[c].name == vs[i].name;
        assert Tracked(st, vs, c);
      }
    }
  }

  // --- The decoded tree ---

  /** Every node that can be reached has the total of its self weight and its children's totals. */
  ghost predicate TotalsAdd(st: Store)
    requires Shaped(st)
  {
    forall id :: 0 < id < |st| && Listed(st, id) ==> Excess(st, id) == 0
  }

  lemma {:induction false} ListedLaw(st: Store, id: nat)
    requires Sound(st) && id < |st| && LawBelow(st, 0) && Listed(st, id)
    ensures LawBelow(st, id) && (id != 0 ==> Excess(st, id) == 0)
    decreases id
  {
    if id != 0 {
      ListedLaw(st, st[id].parent);
      assert HasChild(st, st[id].parent, id);
    }
  }

  lemma {:induction false} LawOfListed(st: Store, n: nat)
    requires Sound(st) && n < |st| && TotalsAdd(st) && Listed(st, n)
    ensures LawBelow(st, n)
    decreases |st| - n
  {
    forall c: nat | HasChild(st, n, c) && Owns(st, n, c) ensures Excess(st, c) == 0 && LawBelow(st, c) {
      LawOfListed(st, c);
    }
  }

  lemma TotalsAddIsLaw(st: Store)
    requires Sound(st)
    ensures TotalsAdd(st) <==> LawBelow(st, 0)
  {
    if LawBelow(st, 0) {
      forall id | 0 < id < |st| && Listed(st, id) ensures Excess(st, id) == 0 { ListedLaw(st, id); }
    }
    if TotalsAdd(st) { LawOfListed(st, 0); }
  }

  // Decoding the encoding of v is attaching v to the virtual root.
  lemma {:induction false} DecodeAttaches(v: Value)
    requires Fits([v])
    ensures var st := AttachAll(START.st, 0, [v]);
            && Tracks(st, 0, [v]) && st[0].children != [] && st[0].children[0] < |st|
            && Decode(Encode(v)) == Tree(st, st[st[0].children[0]].children)
  {
    var st := AttachAll(START.st, 0, [v]);
    var o := RunOne(v);
    AllTracked(START.st, 0, [v]);
    assert HasNamed(st, 0, [v][0].name);
    assert HasChild(st, 0, st[0].children[0]);
  }

  lemma {:induction false} RunOne(v: Value) returns (o: nat)
    requires Fits([v])
    ensures Run(Encode(v), START) == Running(Progress(AttachAll(START.st, 0, [v]), [], o))
  {
    var b := Encode(v);
    assert b[0..] == EncodeAll([v]) + [] by { EncodeOne(v); }
    assert Repeat(0, 1) + [] == START.parents;
    o := RunAttaches(b, START, 0, [v], [], []);
  }

  /** Whatever the names, the decoded tree keeps the total law exactly when, among siblings of one name, all but
      the last weigh nothing. */
  lemma {:induction false} DecodedLawExactly(v: Value)
    requires Fits([v])
    ensures var d := Decode(Encode(v)); d.Tree? && Sound(d.st) && (TotalsAdd(d.st) <==> Harmless([v]))
  {
    DecodeAttaches(v);
    var st := AttachAll(START.st, 0, [v]);
    LawOfTracked(st, 0, [v]);
    TotalsAddIsLaw(st);
  }

  // --- An input that breaks it ---

  // A root with two children of the name "a", of weight 1 and 2.
  const TWICE := Value([], 0, [Value([97], 1, []), Value([97], 2, [])])

  lemma LeafBytes(x: nat)
    requires x < 128
    ensures Encode(Value([97], x, [])) == [1, 97, x, 0]
  {
    assert EncodeAll([]) == [];
  }

  lemma TwiceEncoded()
    ensures Encode(TWICE) == [0, 0, 2, 1, 97, 1, 0, 1, 97, 2, 0]
  {
    var a, b := Value([97], 1, []), Value([97], 2, []);
    LeafBytes(1);
    LeafBytes(2);
    EncodeOne(b);
    assert [a, b][1..] == [b];
    assert EncodeAll([a, b]) == Encode(a) + Encode(b);
  }

  // A leaf attached under a node without children is its only child.
  lemma FirstChild(st: Store, n: nat, name: Name, x: nat)
    requires Sound(st) && n < |st| && st[n].children == [] && x < 0x8000_0000_0000_0000
    ensures var (st', d) := Attach(st, n, name, x);
            Attached(st, st', n, d, name, x) && d == |st| && st'[n].children == [d]
  {
    AttachIs(st, n, name, x);
    var (st', d) := Attach(st, n, name, x);
    OnlyChild(st', n, d);
  }

  lemma OnlyChild(st: Store, n: nat, d: nat)
    requires Shaped(st) && n < |st| && forall c: nat :: HasChild(st, n, c) <==> c == d
    ensures st[n].children == [d]
  {
    var ch := st[n].children;
    ChildrenDistinct(st, n);
    assert HasChild(st, n, d);
    forall i | 0 <= i < |ch| ensures ch[i] == d { assert HasChild(st, n, ch[i]); }
    assert ch[0] == ch[|ch| - 1];
  }

  lemma SecondOfName(st: Store, n: nat, d: nat, x: nat)
    requires Sound(st) && n < |st| && st[n].children == [d] && x < 0x8000_0000_0000_0000
    ensures d < |st| && n != d
    ensures var (st', e) := Attach(st, n, st[d].name, x);
            && Attached(st, st', n, e, st[d].name, x) && e == d && st'[n].children == [d] && st'[d].children == []
            && st'[d].self == x && st'[d].total == st[d].total + x
  {
    assert HasChild(st, n, d);
    ChildOffChain(st, n, d);
    AttachIs(st, n, st[d].name, x);
    var (st', e) := Attach(st, n, st[d].name, x);
    OnlyChild(st', n, d);
  }

  lemma TwiceAttached(st: Store)
    requires Sound(st) && |st| == 2 && st[1].children == []
    ensures var st' := AttachAll(st, 1, TWICE.kids);
            && |st'| > 2 && st'[0] == st[0] && st'[1].children == [2]
            && st'[2].self == 2 && st'[2].total == 3 && st'[2].children == []
  {
    var kids := TWICE.kids;
    var s0, s1, d := LastAttached(st, 1, kids);
    var t0, t1, e := LastAttached(st, 1, kids[..1]);
    FirstChild(st, 1, [97], 1);
    SecondOfName(t1, 1, 2, 2);
  }

  /** Two siblings of one name, of weight 1 and 2, leave one node of self weight 2 and total 3. */
  lemma RepeatedNameInput(b: seq<Byte>)
    requires b == [0, 0, 2, 1, 97, 1, 0, 1, 97, 2, 0]
    ensures var d := Decode(b);
            && d.Tree? && d.roots == [2] && |d.st| > 2
            && d.st[2].self == 2 && d.st[2].total == 3 && d.st[2].children == []
  {
    TwiceEncoded();
    DecodeAttaches(TWICE);
    TwiceStore();
  }

  lemma TwiceStore()
    ensures var st := AttachAll(START.st, 0, [TWICE]);
            && |st| > 2 && st[0].children == [1] && st[1].children == [2]
            && st[2].self == 2 && st[2].total == 3 && st[2].children == []
  {
    var st0, st1, top := LastAttached(START.st, 0, [TWICE]);
    FirstChild(START.st, 0, [], 0);
    TwiceAttached(st1);
  }
}
