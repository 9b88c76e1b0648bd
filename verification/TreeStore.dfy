/** A flame-graph tree as the heap it lives in: nodes in a store, pointers as indices. Node 0 is the
    virtual root whose children are the tree's roots. */
module TreeStore {
  import opened Names
  import opened Sums

  /** depth is how many parent links lead to the virtual root; the source does not store it. */
  datatype Node = Node(parent: nat, children: seq<nat>, self: int, total: int, name: Name, depth: nat)

  type Store = seq<Node>
  type Path = seq<Name>

  // --- Shape ---

  ghost predicate Distinct(s: seq<nat>) {
    forall i, j :: 0 <= i < j < |s| ==> s[i] != s[j]
  }

  // Parent links and child lists of the live nodes agree, and every one hangs below the root.
  ghost predicate Linked(st: Store, live: set<nat>) {
    && 0 < |st| && 0 in live && st[0].depth == 0
    && (forall id :: id in live ==> id < |st|)
    && (forall id :: id in live && id != 0 ==> UpLink(st, live, id))
    && (forall id, k :: id in live && 0 <= k < |st[id].children| ==> DownLink(st, live, id, st[id].children[k]))
    && (forall id :: id in live ==> Distinct(st[id].children))
  }

  ghost predicate UpLink(st: Store, live: set<nat>, id: nat)
    requires id < |st|
  {
    var p := st[id].parent;
    p in live && p < |st| && st[id].depth == st[p].depth + 1 && id in st[p].children
  }

  ghost predicate DownLink(st: Store, live: set<nat>, id: nat, c: nat) {
    c in live && c != 0 && c < |st| && st[c].parent == id
  }

  // The names from the root down to a node.
  ghost function PathOf(st: Store, live: set<nat>, id: nat): Path
    requires Linked(st, live) && id in live
    decreases st[id].depth
  {
    if id == 0 then []
    else
      assert UpLink(st, live, id);
      PathOf(st, live, st[id].parent) + [st[id].name]
  }

  lemma {:induction false} PathLength(st: Store, live: set<nat>, id: nat)
    requires Linked(st, live) && id in live
    ensures |PathOf(st, live, id)| == st[id].depth
    decreases st[id].depth
  {
    if id != 0 {
      assert UpLink(st, live, id);
      PathLength(st, live, st[id].parent);
    }
  }

  // --- Weights ---

  ghost function TermAt(st: Store, live: set<nat>, p: Path, id: nat): int
    requires Linked(st, live)
  {
    if id in live && id != 0 && PathOf(st, live, id) == p then st[id].self else 0
  }

  ghost function Terms(st: Store, live: set<nat>, p: Path): nat -> int
    requires Linked(st, live)
  {
    (id: nat) => TermAt(st, live, p, id)
  }

  /** The summed self weight of the nodes whose name path is p. */
  ghost function Weight(st: Store, live: set<nat>, p: Path): int
    requires Linked(st, live)
  {
    Sum(Terms(st, live, p), |st|)
  }

  // --- Totals ---

  function SumTotals(st: Store, ids: seq<nat>): int
    requires forall k :: 0 <= k < |ids| ==> ids[k] < |st|
  {
    if ids == [] then 0 else st[ids[0]].total + SumTotals(st, ids[1..])
  }

  ghost function KidTotals(st: Store, live: set<nat>, id: nat): int
    requires Linked(st, live) && id in live
  {
    assert forall k :: 0 <= k < |st[id].children| ==> DownLink(st, live, id, st[id].children[k]);
    SumTotals(st, st[id].children)
  }

  // total = self + the totals of the children, up to an amount owed at the node.
  ghost predicate LawAt(st: Store, live: set<nat>, id: nat, owed: int)
    requires Linked(st, live) && id in live
  {
    st[id].total == st[id].self + KidTotals(st, live, id) + owed
  }

  ghost predicate Law(st: Store, live: set<nat>)
    requires Linked(st, live)
  {
    forall id :: id in live && id != 0 ==> LawAt(st, live, id, 0)
  }

  // Adds to the self weight and the total of one node.
  function AddTo(st: Store, d: nat, self: int, total: int): (r: Store)
    requires d < |st|
    ensures |r| == |st|
  {
    st[d := st[d].(self := st[d].self + self, total := st[d].total + total)]
  }

  // --- Order ---

  ghost predicate SortedNames(st: Store, ids: seq<nat>) {
    && (forall k :: 0 <= k < |ids| ==> ids[k] < |st|)
    && (forall i, j :: 0 <= i < j < |ids| ==> Less(st[ids[i]].name, st[ids[j]].name))
  }

  ghost predicate Sorted(st: Store, live: set<nat>)
    requires Linked(st, live)
  {
    forall id :: id in live ==> SortedNames(st, st[id].children)
  }

  ghost predicate NonNegative(st: Store, live: set<nat>)
    requires Linked(st, live)
  {
    forall id :: id in live ==> st[id].self >= 0 && st[id].total >= 0
  }

  // The virtual root carries no weight of its own.
  ghost predicate RootClean(st: Store) {
    0 < |st| && st[0].self == 0 && st[0].total == 0
  }

  // --- Frames ---

  // Same links, names and depths.
  ghost predicate SameShape(st: Store, st': Store, live: set<nat>) {
    && |st| == |st'|
    && forall id :: 0 <= id < |st| && id in live ==>
         st'[id] == st[id].(self := st'[id].self, total := st'[id].total)
  }

  lemma {:induction false} SameShapePath(st: Store, st': Store, live: set<nat>, id: nat)
    requires Linked(st, live) && SameShape(st, st', live) && id in live
    ensures Linked(st', live) && PathOf(st', live, id) == PathOf(st, live, id)
    decreases st[id].depth
  {
    SameShapeLinked(st, st', live);
    if id != 0 {
      assert UpLink(st, live, id);
      SameShapePath(st, st', live, st[id].parent);
    }
  }

  lemma SameShapeLinked(st: Store, st': Store, live: set<nat>)
    requires Linked(st, live) && SameShape(st, st', live)
    ensures Linked(st', live)
  {
    forall id | id in live && id != 0 ensures UpLink(st', live, id) { assert UpLink(st, live, id); }
    forall id, k | id in live && 0 <= k < |st'[id].children| ensures DownLink(st', live, id, st'[id].children[k]) {
      assert DownLink(st, live, id, st[id].children[k]);
    }
  }

  // Adding v to the self weight of one node adds v at its path and nowhere else.
  lemma BumpWeight(st: Store, st': Store, live: set<nat>, n: nat, v: int, p: Path)
    requires Linked(st, live) && SameShape(st, st', live) && n in live
    requires forall id :: id in live && id != n ==> st'[id].self == st[id].self
    requires st'[n].self == st[n].self + v
    ensures Linked(st', live)
    ensures Weight(st', live, p) == Weight(st, live, p) + (if n != 0 && PathOf(st, live, n) == p then v else 0)
  {
    SameShapeLinked(st, st', live);
    var f, g := Terms(st, live, p), Terms(st', live, p);
    forall i: nat | i < |st| && i != n ensures f(i) == g(i) {
      if i in live { SameShapePath(st, st', live, i); }
    }
    SameShapePath(st, st', live, n);
    SumBump(f, g, |st|, n);
  }

  lemma {:induction false} SumTotalsSame(st: Store, st': Store, ids: seq<nat>)
    requires forall k :: 0 <= k < |ids| ==> ids[k] < |st| && ids[k] < |st'| && st'[ids[k]].total == st[ids[k]].total
    ensures SumTotals(st', ids) == SumTotals(st, ids)
  {
    if ids != [] { SumTotalsSame(st, st', ids[1..]); }
  }

  lemma {:induction false} SumTotalsBump(st: Store, st': Store, ids: seq<nat>, n: nat)
    requires Distinct(ids) && n in ids && forall k :: 0 <= k < |ids| ==> ids[k] < |st| && ids[k] < |st'|
    requires forall k :: 0 <= k < |ids| && ids[k] != n ==> st'[ids[k]].total == st[ids[k]].total
    ensures SumTotals(st', ids) == SumTotals(st, ids) + st'[n].total - st[n].total
  {
    if ids[0] == n {
      forall k | 0 <= k < |ids[1..]| ensures ids[1..][k] != n { assert ids[1..][k] == ids[k + 1]; }
      SumTotalsSame(st, st', ids[1..]);
    } else {
      assert n in ids[1..];
      SumTotalsBump(st, st', ids[1..], n);
    }
  }

  lemma {:induction false} SumTotalsConcat(st: Store, a: seq<nat>, b: seq<nat>)
    requires forall k :: 0 <= k < |a| ==> a[k] < |st|
    requires forall k :: 0 <= k < |b| ==> b[k] < |st|
    ensures forall k :: 0 <= k < |a + b| ==> (a + b)[k] < |st|
    ensures SumTotals(st, a + b) == SumTotals(st, a) + SumTotals(st, b)
  {
    if a == [] { assert a + b == b; }
    else {
      assert (a + b)[1..] == a[1..] + b;
      SumTotalsConcat(st, a[1..], b);
    }
  }

  // Adding v to the total of one node shows in the children's totals of its parent only.
  lemma BumpTotal(st: Store, st': Store, live: set<nat>, n: nat, v: int, id: nat)
    requires Linked(st, live) && SameShape(st, st', live) && n in live && id in live
    requires forall k :: k in live && k != n ==> st'[k].total == st[k].total
    requires st'[n].total == st[n].total + v
    ensures Linked(st', live)
    ensures KidTotals(st', live, id) == KidTotals(st, live, id) + (if n != 0 && st[n].parent == id then v else 0)
  {
    SameShapeLinked(st, st', live);
    var ch := st[id].children;
    forall k | 0 <= k < |ch| ensures DownLink(st, live, id, ch[k]) {}
    if n in ch {
      SumTotalsBump(st, st', ch, n);
    } else {
      if n != 0 { assert UpLink(st, live, n); }
      SumTotalsSame(st, st', ch);
    }
  }

  // --- Uniqueness of paths ---

  /** With sorted siblings, a name path leads to at most one node. */
  lemma {:induction false} PathInjective(st: Store, live: set<nat>, a: nat, b: nat)
    requires Linked(st, live) && Sorted(st, live) && a in live && b in live
    requires PathOf(st, live, a) == PathOf(st, live, b)
    ensures a == b
    decreases st[a].depth
  {
    PathLength(st, live, a); PathLength(st, live, b);
    if a != 0 {
      assert UpLink(st, live, a);
      assert b != 0;
      assert UpLink(st, live, b);
      var pa, pb := PathOf(st, live, a), PathOf(st, live, b);
      assert PathOf(st, live, st[a].parent) == pa[..|pa| - 1];
      assert PathOf(st, live, st[b].parent) == pb[..|pb| - 1];
      PathInjective(st, live, st[a].parent, st[b].parent);
      var ch := st[st[a].parent].children;
      var i, j :| 0 <= i < |ch| && ch[i] == a && 0 <= j < |ch| && ch[j] == b;
      assert st[a].name == pa[|pa| - 1] == st[b].name;
      LessIrreflexive(st[a].name);
    }
  }

  /** Then the weight of a path is the self weight of the node it leads to. */
  lemma WeightIsSelf(st: Store, live: set<nat>, n: nat)
    requires Linked(st, live) && Sorted(st, live) && n in live && n != 0
    ensures Weight(st, live, PathOf(st, live, n)) == st[n].self
  {
    var p := PathOf(st, live, n);
    var f := Terms(st, live, p);
    var zero := (i: nat) => if i == n then f(i) else 0;
    forall i: nat | i < |st| ensures f(i) == zero(i) {
      if i != n && i in live && i != 0 && PathOf(st, live, i) == p { PathInjective(st, live, i, n); }
    }
    SumSame(f, zero, |st|);
    var none := (i: nat) => 0;
    SumZero(none, |st|);
    SumBump(none, zero, |st|, n);
  }

  // --- Non-negative trees ---

  lemma {:induction false} SumAtLeast(st: Store, ids: seq<nat>, c: nat)
    requires forall k :: 0 <= k < |ids| ==> ids[k] < |st| && st[ids[k]].total >= 0
    ensures SumTotals(st, ids) >= 0
    ensures c in ids ==> c < |st| && SumTotals(st, ids) >= st[c].total
  {
    if ids != [] {
      SumAtLeast(st, ids[1..], c);
      if c in ids && ids[0] != c { assert c in ids[1..]; }
    }
  }

  /** No child of a non-negative tree outweighs its parent. */
  lemma ChildBelowParent(st: Store, live: set<nat>, id: nat)
    requires Linked(st, live) && Law(st, live) && NonNegative(st, live) && id in live && id != 0 && st[id].parent != 0
    ensures UpLink(st, live, id) && st[id].total <= st[st[id].parent].total
  {
    assert UpLink(st, live, id);
    var p := st[id].parent;
    assert LawAt(st, live, p, 0);
    forall k | 0 <= k < |st[p].children| ensures DownLink(st, live, p, st[p].children[k]) {}
    SumAtLeast(st, st[p].children, id);
  }

  /** A non-negative tree whose root totals sum to zero has no weight anywhere. */
  lemma ZeroWeights(st: Store, live: set<nat>)
    requires Linked(st, live) && Law(st, live) && NonNegative(st, live) && KidTotals(st, live, 0) == 0
    ensures forall p :: Weight(st, live, p) == 0
  {
    forall p ensures Weight(st, live, p) == 0 {
      forall id: nat | id < |st| ensures Terms(st, live, p)(id) == 0 {
        if id in live && id != 0 { ZeroNode(st, live, id); }
      }
      SumZero(Terms(st, live, p), |st|);
    }
  }

  lemma {:induction false} ZeroNode(st: Store, live: set<nat>, id: nat)
    requires Linked(st, live) && Law(st, live) && NonNegative(st, live) && KidTotals(st, live, 0) == 0
    requires id in live && id != 0
    ensures st[id].total == 0 && st[id].self == 0
    decreases st[id].depth
  {
    assert UpLink(st, live, id);
    var p := st[id].parent;
    if p == 0 {
      forall k | 0 <= k < |st[0].children| ensures DownLink(st, live, 0, st[0].children[k]) {}
      SumAtLeast(st, st[0].children, id);
    } else {
      ZeroNode(st, live, p);
      ChildBelowParent(st, live, id);
    }
    assert LawAt(st, live, id, 0);
    forall k | 0 <= k < |st[id].children| ensures DownLink(st, live, id, st[id].children[k]) {}
    SumAtLeast(st, st[id].children, id);
  }
}
