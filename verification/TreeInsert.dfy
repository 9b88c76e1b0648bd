/** Adding a child node: what it keeps. */
module TreeInsert {
  import opened Names
  import opened Sums
  import opened TreeStore

  /** The store after a new child of n, with the given name, is put at place i of its siblings. */
  function InsertAt(st: Store, n: nat, i: nat, name: Name): (r: Store)
    requires n < |st| && i <= |st[n].children|
    ensures |r| == |st| + 1
  {
    var ch := st[n].children;
    st[n := st[n].(children := ch[..i] + [|st|] + ch[i..])] + [Node(n, [], 0, 0, name, st[n].depth + 1)]
  }

  // i is where the name belongs among the children of n, which do not have it yet.
  ghost predicate Place(st: Store, n: nat, i: nat, name: Name) {
    && n < |st| && i <= |st[n].children|
    && (forall k :: 0 <= k < |st[n].children| ==> st[n].children[k] < |st|)
    && (forall k :: 0 <= k < i ==> Less(st[st[n].children[k]].name, name))
    && (forall k :: i <= k < |st[n].children| ==> Less(name, st[st[n].children[k]].name))
  }

  // Binary search for the first child of n whose name is not below the given one.
  method FindPlace(st: Store, n: nat, name: Name) returns (i: nat)
    requires n < |st| && SortedNames(st, st[n].children)
    ensures i <= |st[n].children|
    ensures (i < |st[n].children| && st[st[n].children[i]].name == name) || Place(st, n, i, name)
  {
    i := 0;
    var ch := st[n].children;
    var j: nat := |ch|;
    while i < j
      invariant i <= j <= |ch|
      invariant forall k :: 0 <= k < i ==> Less(st[ch[k]].name, name)
      invariant forall k :: j <= k < |ch| ==> !Less(st[ch[k]].name, name)
    {
      var h := (i + j) / 2;
      if Less(st[ch[h]].name, name) {
        forall k | 0 <= k < h + 1 ensures Less(st[ch[k]].name, name) {
          if k < h { LessTransitive(st[ch[k]].name, st[ch[h]].name, name); }
        }
        i := h + 1;
      } else {
        forall k | h <= k < |ch| ensures !Less(st[ch[k]].name, name) {
          if h < k && Less(st[ch[k]].name, name) { LessTransitive(st[ch[h]].name, st[ch[k]].name, name); }
        }
        j := h;
      }
    }
    if !(i < |ch| && st[ch[i]].name == name) {
      forall k | i <= k < |ch| ensures Less(name, st[ch[k]].name) {
        LessTotal(st[ch[i]].name, name);
        if i < k { LessTransitive(name, st[ch[i]].name, st[ch[k]].name); }
      }
    }
  }

  lemma InsertedMembers(ch: seq<nat>, i: nat, c: nat)
    requires i <= |ch|
    ensures forall x :: x in ch[..i] + [c] + ch[i..] <==> x in ch || x == c
  {
    var r := ch[..i] + [c] + ch[i..];
    forall x | x in ch ensures x in r {
      var k :| 0 <= k < |ch| && ch[k] == x;
      if k < i { assert r[k] == x; } else { assert r[k + 1] == x; }
    }
    assert r[i] == c;
  }

  lemma InsertUpLink(st: Store, live: set<nat>, n: nat, i: nat, name: Name, id: nat)
    requires Linked(st, live) && n in live && i <= |st[n].children| && id != 0 && (id in live || id == |st|)
    ensures UpLink(InsertAt(st, n, i, name), live + {|st|}, id)
  {
    InsertedMembers(st[n].children, i, |st|);
    if id in live { assert UpLink(st, live, id); }
  }

  lemma InsertDownLink(st: Store, live: set<nat>, n: nat, i: nat, name: Name, id: nat, c: nat)
    requires Linked(st, live) && n in live && i <= |st[n].children| && (id in live || id == |st|)
    requires c in InsertAt(st, n, i, name)[id].children
    ensures DownLink(InsertAt(st, n, i, name), live + {|st|}, id, c)
  {
    InsertedMembers(st[n].children, i, |st|);
    if c != |st| {
      var k :| 0 <= k < |st[id].children| && st[id].children[k] == c;
      assert DownLink(st, live, id, st[id].children[k]);
    }
  }

  lemma InsertLinked(st: Store, live: set<nat>, n: nat, i: nat, name: Name)
    requires Linked(st, live) && n in live && i <= |st[n].children|
    ensures Linked(InsertAt(st, n, i, name), live + {|st|})
  {
    var st', live' := InsertAt(st, n, i, name), live + {|st|};
    forall id | id in live' && id != 0 ensures UpLink(st', live', id) { InsertUpLink(st, live, n, i, name, id); }
    forall id, k | id in live' && 0 <= k < |st'[id].children| ensures DownLink(st', live', id, st'[id].children[k]) {
      InsertDownLink(st, live, n, i, name, id, st'[id].children[k]);
    }
    forall k | 0 <= k < |st[n].children| ensures st[n].children[k] != |st| {
      assert DownLink(st, live, n, st[n].children[k]);
    }
    InsertDistinct(st[n].children, i, |st|);
  }

  lemma InsertDistinct(ch: seq<nat>, i: nat, c: nat)
    requires Distinct(ch) && i <= |ch| && c !in ch
    ensures Distinct(ch[..i] + [c] + ch[i..])
  {
    var r := ch[..i] + [c] + ch[i..];
    forall a, b | 0 <= a < b < |r| ensures r[a] != r[b] {
      var a' := if a < i then a else a - 1;
      var b' := if b < i then b else b - 1;
      if a != i { assert r[a] == ch[a']; }
      if b != i { assert r[b] == ch[b']; }
    }
  }

  lemma {:induction false} InsertPath(st: Store, live: set<nat>, n: nat, i: nat, name: Name, id: nat)
    requires Linked(st, live) && n in live && i <= |st[n].children| && id in live
    requires Linked(InsertAt(st, n, i, name), live + {|st|})
    ensures PathOf(InsertAt(st, n, i, name), live + {|st|}, id) == PathOf(st, live, id)
    decreases st[id].depth
  {
    if id != 0 {
      assert UpLink(st, live, id);
      InsertPath(st, live, n, i, name, st[id].parent);
    }
  }

  // A fresh node has no weight, so inserting it changes no path's weight.
  lemma InsertWeight(st: Store, live: set<nat>, n: nat, i: nat, name: Name, p: Path)
    requires Linked(st, live) && n in live && i <= |st[n].children|
    requires Linked(InsertAt(st, n, i, name), live + {|st|})
    ensures Weight(InsertAt(st, n, i, name), live + {|st|}, p) == Weight(st, live, p)
  {
    var st', live' := InsertAt(st, n, i, name), live + {|st|};
    forall k: nat | k < |st| ensures TermAt(st', live', p, k) == TermAt(st, live, p, k) {
      InsertTerm(st, live, n, i, name, p, k);
    }
    OneMoreTerm(st, live, st', live', p);
  }

  lemma OneMoreTerm(st: Store, live: set<nat>, st': Store, live': set<nat>, p: Path)
    requires Linked(st, live) && Linked(st', live') && |st'| == |st| + 1 && st'[|st|].self == 0
    requires forall k: nat :: k < |st| ==> TermAt(st', live', p, k) == TermAt(st, live, p, k)
    ensures Weight(st', live', p) == Weight(st, live, p)
  {
    SumSame(Terms(st, live, p), Terms(st', live', p), |st|);
    assert Terms(st', live', p)(|st|) == 0;
  }

  lemma InsertTerm(st: Store, live: set<nat>, n: nat, i: nat, name: Name, p: Path, k: nat)
    requires Linked(st, live) && n in live && i <= |st[n].children| && k < |st|
    requires Linked(InsertAt(st, n, i, name), live + {|st|})
    ensures TermAt(InsertAt(st, n, i, name), live + {|st|}, p, k) == TermAt(st, live, p, k)
  {
    if k in live { InsertPath(st, live, n, i, name, k); }
  }

  // The sibling list with the new child in its place is sorted.
  lemma SiblingsSorted(st: Store, st': Store, ch: seq<nat>, i: nat, c: nat)
    requires SortedNames(st, ch) && i <= |ch| && c < |st'|
    requires forall k :: 0 <= k < |ch| ==> ch[k] < |st'| && st'[ch[k]].name == st[ch[k]].name
    requires forall k :: 0 <= k < i ==> Less(st[ch[k]].name, st'[c].name)
    requires forall k :: i <= k < |ch| ==> Less(st'[c].name, st[ch[k]].name)
    ensures SortedNames(st', ch[..i] + [c] + ch[i..])
  {
    var r := ch[..i] + [c] + ch[i..];
    forall a | 0 <= a < |r| ensures a != i ==> r[a] == ch[if a < i then a else a - 1] {}
    forall a, b | 0 <= a < b < |r| ensures Less(st'[r[a]].name, st'[r[b]].name) {
      if a != i { assert r[a] == ch[if a < i then a else a - 1]; }
      if b != i { assert r[b] == ch[if b < i then b else b - 1]; }
    }
  }

  lemma SortedFrame(st: Store, st': Store, ch: seq<nat>)
    requires SortedNames(st, ch) && |st| <= |st'|
    requires forall k :: 0 <= k < |st| ==> st'[k].name == st[k].name
    ensures SortedNames(st', ch)
  {
  }

  lemma InsertSorted(st: Store, live: set<nat>, n: nat, i: nat, name: Name)
    requires Linked(st, live) && Sorted(st, live) && n in live && Place(st, n, i, name)
    requires Linked(InsertAt(st, n, i, name), live + {|st|})
    ensures Sorted(InsertAt(st, n, i, name), live + {|st|})
  {
    var st', live' := InsertAt(st, n, i, name), live + {|st|};
    forall k | 0 <= k < |st| ensures st'[k].name == st[k].name {}
    assert st'[|st|].name == name && st'[|st|].children == [];
    SiblingsSorted(st, st', st[n].children, i, |st|);
    forall id | id in live' ensures SortedNames(st', st'[id].children) {
      if id != n && id != |st| {
        assert st'[id] == st[id];
        SortedFrame(st, st', st[id].children);
      }
    }
  }

  // The totals of the sibling list are unchanged by a child whose total is zero.
  lemma SiblingsTotals(st: Store, st': Store, ch: seq<nat>, i: nat, c: nat)
    requires i <= |ch| && c < |st'| && st'[c].total == 0
    requires forall k :: 0 <= k < |ch| ==> ch[k] < |st| && ch[k] < |st'| && st'[ch[k]].total == st[ch[k]].total
    ensures forall k :: 0 <= k < |ch[..i] + [c] + ch[i..]| ==> (ch[..i] + [c] + ch[i..])[k] < |st'|
    ensures SumTotals(st', ch[..i] + [c] + ch[i..]) == SumTotals(st, ch)
  {
    var a, b := ch[..i], ch[i..];
    assert ch == a + b;
    SumTotalsSame(st, st', a);
    SumTotalsSame(st, st', b);
    SumTotalsConcat(st, a, b);
    SumTotalsConcat(st', a, [c]);
    SumTotalsConcat(st', a + [c], b);
  }

  lemma InsertKidTotals(st: Store, live: set<nat>, n: nat, i: nat, name: Name, id: nat)
    requires Linked(st, live) && n in live && i <= |st[n].children| && id in live
    requires Linked(InsertAt(st, n, i, name), live + {|st|})
    ensures KidTotals(InsertAt(st, n, i, name), live + {|st|}, id) == KidTotals(st, live, id)
  {
    var st', ch := InsertAt(st, n, i, name), st[id].children;
    forall k | 0 <= k < |ch| ensures ch[k] < |st| && st'[ch[k]].total == st[ch[k]].total {
      assert DownLink(st, live, id, ch[k]);
    }
    if id == n {
      SiblingsTotals(st, st', ch, i, |st|);
    } else {
      assert st'[id] == st[id];
      SumTotalsSame(st, st', ch);
    }
  }

  /** A store grown by empty nodes: everything said about the old ones still holds. */
  ghost predicate Grown(st: Store, live: set<nat>, st': Store, live': set<nat>)
    requires Linked(st, live)
  {
    && Linked(st', live') && live <= live' && |st| <= |st'|
    && (forall id :: id in live ==> SameNode(st, live, st', live', id))
    && (forall id :: id in live' && id !in live ==> EmptyNode(st', live', id))
    && (forall p :: Weight(st', live', p) == Weight(st, live, p))
  }

  ghost predicate SameNode(st: Store, live: set<nat>, st': Store, live': set<nat>, id: nat)
    requires Linked(st, live) && Linked(st', live') && id in live && id in live'
  {
    && st'[id] == st[id].(children := st'[id].children)
    && PathOf(st', live', id) == PathOf(st, live, id)
    && KidTotals(st', live', id) == KidTotals(st, live, id)
  }

  ghost predicate EmptyNode(st: Store, live: set<nat>, id: nat)
    requires Linked(st, live) && id in live
  {
    id != 0 && st[id].self == 0 && st[id].total == 0 && KidTotals(st, live, id) == 0
  }

  lemma InsertOldNode(st: Store, live: set<nat>, n: nat, i: nat, name: Name, id: nat)
    requires Linked(st, live) && n in live && i <= |st[n].children| && id in live
    requires Linked(InsertAt(st, n, i, name), live + {|st|})
    ensures SameNode(st, live, InsertAt(st, n, i, name), live + {|st|}, id)
  {
    InsertPath(st, live, n, i, name, id);
    InsertKidTotals(st, live, n, i, name, id);
  }

  lemma InsertNewNode(st: Store, live: set<nat>, n: nat, i: nat, name: Name)
    requires Linked(st, live) && n in live && i <= |st[n].children|
    requires Linked(InsertAt(st, n, i, name), live + {|st|})
    ensures EmptyNode(InsertAt(st, n, i, name), live + {|st|}, |st|)
    ensures PathOf(InsertAt(st, n, i, name), live + {|st|}, |st|) == PathOf(st, live, n) + [name]
  {
    var st' := InsertAt(st, n, i, name);
    assert st'[|st|] == Node(n, [], 0, 0, name, st[n].depth + 1);
    InsertPath(st, live, n, i, name, n);
  }

  /** Inserting a child at its place only grows the store, and keeps siblings sorted. */
  lemma InsertGrows(st: Store, live: set<nat>, n: nat, i: nat, name: Name)
    requires Linked(st, live) && Sorted(st, live) && n in live && Place(st, n, i, name)
    ensures Grown(st, live, InsertAt(st, n, i, name), live + {|st|})
    ensures Sorted(InsertAt(st, n, i, name), live + {|st|})
    ensures PathOf(InsertAt(st, n, i, name), live + {|st|}, |st|) == PathOf(st, live, n) + [name]
  {
    InsertLinked(st, live, n, i, name);
    InsertSorted(st, live, n, i, name);
    InsertNewNode(st, live, n, i, name);
    InsertGrown(st, live, n, i, name, InsertAt(st, n, i, name), live + {|st|});
  }

  lemma InsertGrown(st: Store, live: set<nat>, n: nat, i: nat, name: Name, st': Store, live': set<nat>)
    requires Linked(st, live) && n in live && i <= |st[n].children|
    requires st' == InsertAt(st, n, i, name) && live' == live + {|st|} && Linked(st', live')
    ensures Grown(st, live, st', live')
  {
    InsertNewNode(st, live, n, i, name);
    forall id | id in live ensures SameNode(st, live, st', live', id) { InsertOldNode(st, live, n, i, name, id); }
    forall p ensures Weight(st', live', p) == Weight(st, live, p) { InsertWeight(st, live, n, i, name, p); }
  }

  lemma GrownRefl(st: Store, live: set<nat>)
    requires Linked(st, live)
    ensures Grown(st, live, st, live)
  {
  }

  lemma GrownNonNegative(st: Store, live: set<nat>, st': Store, live': set<nat>)
    requires Linked(st, live) && Grown(st, live, st', live')
    ensures NonNegative(st, live) ==> NonNegative(st', live')
  {
    if NonNegative(st, live) {
      forall id | id in live' ensures st'[id].self >= 0 && st'[id].total >= 0 {
        if id in live { assert SameNode(st, live, st', live', id); } else { assert EmptyNode(st', live', id); }
      }
    }
  }

  // --- The total law while a stack is being inserted ---

  // Every node is balanced, but n has v more than it should.
  ghost predicate OwedAt(st: Store, live: set<nat>, n: nat, v: int)
    requires Linked(st, live)
  {
    forall id :: id in live && id != 0 ==> LawAt(st, live, id, if id == n then v else 0)
  }

  // Every node is balanced, but the parent of n has v more than it should.
  ghost predicate OwedAbove(st: Store, live: set<nat>, n: nat, v: int)
    requires Linked(st, live) && n in live
  {
    forall id :: id in live && id != 0 ==> LawAt(st, live, id, if n != 0 && id == st[n].parent then v else 0)
  }

  lemma PayTotal(st: Store, st': Store, live: set<nat>, n: nat, v: int)
    requires Linked(st, live) && n in live && OwedAbove(st, live, n, v)
    requires st' == st[n := st[n].(total := st[n].total + v)]
    ensures SameShape(st, st', live) && Linked(st', live) && OwedAt(st', live, n, v)
  {
    SameShapeLinked(st, st', live);
    forall id | id in live && id != 0 ensures LawAt(st', live, id, if id == n then v else 0) {
      assert LawAt(st, live, id, if n != 0 && id == st[n].parent then v else 0);
      BumpTotal(st, st', live, n, v, id);
      if n != 0 { assert UpLink(st, live, n); }
    }
  }

  lemma OwedGrown(st: Store, live: set<nat>, st': Store, live': set<nat>, n: nat, c: nat, v: int)
    requires Linked(st, live) && n in live && OwedAt(st, live, n, v) && Grown(st, live, st', live')
    requires c in live' && c != 0 && st'[c].parent == n
    ensures OwedAbove(st', live', c, v)
  {
    forall id | id in live' && id != 0 ensures LawAt(st', live', id, if id == n then v else 0) {
      if id in live {
        assert LawAt(st, live, id, if id == n then v else 0);
        assert SameNode(st, live, st', live', id);
      } else {
        assert EmptyNode(st', live', id);
      }
    }
  }

  lemma PaySelf(st: Store, st': Store, live: set<nat>, n: nat, v: int)
    requires Linked(st, live) && n in live && OwedAbove(st, live, n, v)
    requires st' == st[n := st[n].(total := st[n].total + v, self := st[n].self + v)]
    ensures SameShape(st, st', live) && Linked(st', live) && Law(st', live)
  {
    SameShapeLinked(st, st', live);
    forall id | id in live && id != 0 ensures LawAt(st', live, id, 0) {
      assert LawAt(st, live, id, if n != 0 && id == st[n].parent then v else 0);
      BumpTotal(st, st', live, n, v, id);
      if n != 0 { assert UpLink(st, live, n); }
    }
  }

  // Dropping what a virtual root has collected changes nothing else.
  lemma CleanRoot(st: Store, st': Store, live: set<nat>)
    requires Linked(st, live) && Law(st, live) && Sorted(st, live)
    requires st' == st[0 := st[0].(self := 0, total := 0)]
    ensures Linked(st', live) && Law(st', live) && Sorted(st', live) && RootClean(st')
    ensures forall p :: Weight(st', live, p) == Weight(st, live, p)
  {
    SameShapeLinked(st, st', live);
    forall id | id in live && id != 0 ensures LawAt(st', live, id, 0) {
      assert LawAt(st, live, id, 0);
      BumpTotal(st, st', live, 0, -st[0].total, id);
    }
    SameShapeSorted(st, st', live);
    forall p ensures Weight(st', live, p) == Weight(st, live, p) { BumpWeight(st, st', live, 0, -st[0].self, p); }
  }

  lemma SameShapeSorted(st: Store, st': Store, live: set<nat>)
    requires Linked(st, live) && Sorted(st, live) && SameShape(st, st', live) && Linked(st', live)
    ensures Sorted(st', live)
  {
    forall id | id in live ensures SortedNames(st', st'[id].children) {
      assert SortedNames(st, st[id].children);
      forall k | 0 <= k < |st[id].children| ensures DownLink(st, live, id, st[id].children[k]) {}
    }
  }

  // Where the insertion of a stack stands: v has been added to the totals above n, whose path is
  // the part of the stack walked so far; no weight has changed since the store st0.
  ghost predicate Descending(st0: Store, live0: set<nat>, st: Store, live: set<nat>, n: nat, v: int, walked: Path)
    requires Linked(st0, live0)
  {
    && Linked(st, live) && Sorted(st, live) && n in live && OwedAbove(st, live, n, v)
    && st[0].self == 0 && PathOf(st, live, n) == walked
    && (forall p :: Weight(st, live, p) == Weight(st0, live0, p))
    && (NonNegative(st0, live0) ==> NonNegative(st, live))
  }

  lemma PayStep(st0: Store, live0: set<nat>, st: Store, live: set<nat>, n: nat, v: int, walked: Path, paid: Store)
    requires Linked(st0, live0) && Descending(st0, live0, st, live, n, v, walked) && v > 0
    requires paid == st[n := st[n].(total := st[n].total + v)]
    ensures Linked(paid, live) && Sorted(paid, live) && OwedAt(paid, live, n, v)
    ensures paid[0].self == 0 && PathOf(paid, live, n) == walked
    ensures forall p :: Weight(paid, live, p) == Weight(st0, live0, p)
    ensures NonNegative(st0, live0) ==> NonNegative(paid, live)
  {
    PayTotal(st, paid, live, n, v);
    SameShapeSorted(st, paid, live);
    SameShapePath(st, paid, live, n);
    PayWeights(st, live, n, v, paid);
  }

  lemma PayWeights(st: Store, live: set<nat>, n: nat, v: int, paid: Store)
    requires Linked(st, live) && n in live && v > 0 && Linked(paid, live)
    requires paid == st[n := st[n].(total := st[n].total + v)]
    ensures forall p :: Weight(paid, live, p) == Weight(st, live, p)
    ensures NonNegative(st, live) ==> NonNegative(paid, live)
  {
    forall p ensures Weight(paid, live, p) == Weight(st, live, p) { BumpWeight(st, paid, live, n, 0, p); }
  }

  lemma DescendStep(st0: Store, live0: set<nat>, paid: Store, live: set<nat>, n: nat, v: int, walked: Path,
                    st': Store, live': set<nat>, c: nat, name: Name)
    requires Linked(st0, live0) && Linked(paid, live) && n in live && OwedAt(paid, live, n, v)
    requires paid[0].self == 0 && PathOf(paid, live, n) == walked
    requires forall p :: Weight(paid, live, p) == Weight(st0, live0, p)
    requires NonNegative(st0, live0) ==> NonNegative(paid, live)
    requires Grown(paid, live, st', live') && Sorted(st', live') && c in live' && c != 0 && st'[c].parent == n
    requires PathOf(st', live', c) == walked + [name]
    ensures Descending(st0, live0, st', live', c, v, walked + [name])
  {
    OwedGrown(paid, live, st', live', n, c, v);
    GrownNonNegative(paid, live, st', live');
    assert SameNode(paid, live, st', live', 0);
  }

  lemma StartDescent(st: Store, live: set<nat>, v: int)
    requires Linked(st, live) && Sorted(st, live) && Law(st, live) && RootClean(st)
    ensures Descending(st, live, st, live, 0, v, [])
  {
    forall id | id in live && id != 0 ensures LawAt(st, live, id, 0) {}
  }

  lemma ArriveWeight(st: Store, live: set<nat>, n: nat, v: int, paid: Store, p: Path)
    requires Linked(st, live) && n in live
    requires paid == st[n := st[n].(total := st[n].total + v, self := st[n].self + v)]
    ensures Linked(paid, live)
    ensures var stack := PathOf(st, live, n);
            Weight(paid, live, p) == Weight(st, live, p) + (if stack != [] && p == stack then v else 0)
  {
    SameShapeLinked(st, paid, live);
    BumpWeight(st, paid, live, n, v, p);
    if n != 0 { assert UpLink(st, live, n); }
  }

  /** What was st0 has v more at the stack, unless that is empty, and nothing else. */
  ghost predicate Arrived(st0: Store, live0: set<nat>, st: Store, live: set<nat>, v: int, stack: Path)
    requires Linked(st0, live0)
  {
    && Linked(st, live) && Sorted(st, live) && Law(st, live) && RootClean(st)
    && MoreAt(st0, live0, st, live, v, stack)
    && (NonNegative(st0, live0) ==> NonNegative(st, live))
  }

  ghost predicate MoreAt(st0: Store, live0: set<nat>, st: Store, live: set<nat>, v: int, stack: Path)
    requires Linked(st0, live0) && Linked(st, live)
  {
    forall p :: Weight(st, live, p) == Weight(st0, live0, p) + (if stack != [] && p == stack then v else 0)
  }

  // The end of the walk: v counted at n, and the virtual root clean.
  function Settled(st: Store, n: nat, v: int): (r: Store)
    requires n < |st|
    ensures |r| == |st|
  {
    var paid := st[n := st[n].(total := st[n].total + v, self := st[n].self + v)];
    paid[0 := paid[0].(self := 0, total := 0)]
  }

  lemma Arrive(st0: Store, live0: set<nat>, st: Store, live: set<nat>, n: nat, v: int, stack: Path)
    requires Linked(st0, live0) && Descending(st0, live0, st, live, n, v, stack) && v > 0
    ensures Arrived(st0, live0, Settled(st, n, v), live, v, stack)
  {
    ArriveShape(st, live, n, v);
    ArriveMore(st0, live0, st, live, n, v, stack);
    ArriveNonNegative(st, live, n, v);
  }

  lemma ArriveMore(st0: Store, live0: set<nat>, st: Store, live: set<nat>, n: nat, v: int, stack: Path)
    requires Linked(st0, live0) && Linked(st, live) && Sorted(st, live) && n in live && OwedAbove(st, live, n, v)
    requires PathOf(st, live, n) == stack && Linked(Settled(st, n, v), live)
    requires forall p :: Weight(st, live, p) == Weight(st0, live0, p)
    ensures MoreAt(st0, live0, Settled(st, n, v), live, v, stack)
  {
    ArriveWeights(st, live, n, v);
  }

  lemma ArriveShape(st: Store, live: set<nat>, n: nat, v: int)
    requires Linked(st, live) && Sorted(st, live) && n in live && OwedAbove(st, live, n, v)
    ensures var st' := Settled(st, n, v);
            Linked(st', live) && Sorted(st', live) && Law(st', live) && RootClean(st')
  {
    var paid := st[n := st[n].(total := st[n].total + v, self := st[n].self + v)];
    PaySelf(st, paid, live, n, v);
    SameShapeSorted(st, paid, live);
    CleanRoot(paid, Settled(st, n, v), live);
  }

  lemma ArriveWeights(st: Store, live: set<nat>, n: nat, v: int)
    requires Linked(st, live) && Sorted(st, live) && n in live && OwedAbove(st, live, n, v)
    requires Linked(Settled(st, n, v), live)
    ensures var stack := PathOf(st, live, n);
            forall p :: Weight(Settled(st, n, v), live, p) ==
                        Weight(st, live, p) + (if stack != [] && p == stack then v else 0)
  {
    var paid := st[n := st[n].(total := st[n].total + v, self := st[n].self + v)];
    PaySelf(st, paid, live, n, v);
    SameShapeSorted(st, paid, live);
    CleanRoot(paid, Settled(st, n, v), live);
    forall p { ArriveWeight(st, live, n, v, paid, p); }
  }

  lemma ArriveNonNegative(st: Store, live: set<nat>, n: nat, v: int)
    requires Linked(st, live) && n in live && v > 0 && Linked(Settled(st, n, v), live)
    ensures NonNegative(st, live) ==> NonNegative(Settled(st, n, v), live)
  {
  }
}
