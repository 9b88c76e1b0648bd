/** Renaming the nodes of a tree: what becomes of its paths and weights. */
module TreeRename {
  import opened Names
  import opened Sums
  import opened TreeStore
  import opened TreeMerge

  function MapPath(fn: Name -> Name, p: Path): (r: Path)
    ensures |r| == |p|
  {
    seq(|p|, k requires 0 <= k < |p| => fn(p[k]))
  }

  ghost function MappedTerm(st: Store, live: set<nat>, fn: Name -> Name, q: Path, id: nat): int
    requires Linked(st, live)
  {
    if id in live && id != 0 && MapPath(fn, PathOf(st, live, id)) == q then st[id].self else 0
  }

  ghost function MappedTerms(st: Store, live: set<nat>, fn: Name -> Name, q: Path): nat -> int
    requires Linked(st, live)
  {
    (id: nat) => MappedTerm(st, live, fn, q, id)
  }

  /** The summed self weight of the nodes whose path fn maps to q. */
  ghost function MappedWeight(st: Store, live: set<nat>, fn: Name -> Name, q: Path): int
    requires Linked(st, live)
  {
    Sum(MappedTerms(st, live, fn, q), |st|)
  }

  // The nodes of done, the virtual root aside, carry their new names; nothing else has changed.
  ghost predicate Renamed(st0: Store, st: Store, done: set<nat>, fn: Name -> Name) {
    && |st| == |st0|
    && forall id :: 0 <= id < |st0| ==>
         st[id] == if id in done && id != 0 then st0[id].(name := fn(st0[id].name)) else st0[id]
  }

  lemma RenamedLinked(st0: Store, st: Store, live: set<nat>, fn: Name -> Name)
    requires Linked(st0, live) && Renamed(st0, st, live, fn)
    ensures Linked(st, live)
  {
    forall id | id in live && id != 0 ensures UpLink(st, live, id) { assert UpLink(st0, live, id); }
    forall id, k | id in live && 0 <= k < |st[id].children| ensures DownLink(st, live, id, st[id].children[k]) {
      assert DownLink(st0, live, id, st0[id].children[k]);
    }
  }

  lemma {:induction false} RenamedPath(st0: Store, st: Store, live: set<nat>, fn: Name -> Name, id: nat)
    requires Linked(st0, live) && Linked(st, live) && Renamed(st0, st, live, fn) && id in live
    ensures PathOf(st, live, id) == MapPath(fn, PathOf(st0, live, id))
    decreases st0[id].depth
  {
    if id != 0 {
      assert UpLink(st0, live, id);
      RenamedPath(st0, st, live, fn, st0[id].parent);
    }
  }

  lemma RenamedWeight(st0: Store, st: Store, live: set<nat>, fn: Name -> Name, q: Path)
    requires Linked(st0, live) && Linked(st, live) && Renamed(st0, st, live, fn)
    ensures Weight(st, live, q) == MappedWeight(st0, live, fn, q)
  {
    forall i: nat | i < |st| ensures Terms(st, live, q)(i) == MappedTerms(st0, live, fn, q)(i) {
      if i in live { RenamedPath(st0, st, live, fn, i); }
    }
    SumSame(Terms(st, live, q), MappedTerms(st0, live, fn, q), |st|);
  }

  /** Renaming every node keeps the links, the total law and the weights, path mapped by path. */
  lemma RenamedKeeps(st0: Store, st: Store, live: set<nat>, fn: Name -> Name)
    requires Linked(st0, live) && Law(st0, live) && RootClean(st0) && Renamed(st0, st, live, fn)
    ensures Linked(st, live) && Law(st, live) && RootClean(st)
    ensures forall q :: Weight(st, live, q) == MappedWeight(st0, live, fn, q)
    ensures NonNegative(st0, live) ==> NonNegative(st, live)
  {
    RenamedLinked(st0, st, live, fn);
    forall id | id in live && id != 0 ensures LawAt(st, live, id, 0) {
      assert LawAt(st0, live, id, 0);
      assert forall k :: 0 <= k < |st[id].children| ==> DownLink(st, live, id, st[id].children[k]);
      SumTotalsSame(st0, st, st[id].children);
    }
    forall q ensures Weight(st, live, q) == MappedWeight(st0, live, fn, q) { RenamedWeight(st0, st, live, fn, q); }
  }

  // When no name changes, nothing does.
  lemma RenamedNothing(st0: Store, st: Store, live: set<nat>, fn: Name -> Name)
    requires Linked(st0, live) && Renamed(st0, st, live, fn)
    requires forall id :: id in live && id != 0 ==> fn(st0[id].name) == st0[id].name
    ensures st == st0
  {
    forall id | 0 <= id < |st| ensures st[id] == st0[id] {}
  }

  lemma RootDone(ss: Store, sl: set<nat>, done: set<nat>)
    requires Linked(ss, sl) && SourceLeft(ss, sl, done, [])
    ensures 0 in done
  {
  }
}
