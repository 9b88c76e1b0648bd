/** Merging one tree into another: what the two worklists keep. */
module TreeMerge {
  import opened Sums
  import opened TreeStore
  import opened TreeInsert
  import opened TreeWalk

  // Each pending source node waits beside the destination node of the same path.
  ghost predicate Matched(ss: Store, sl: set<nat>, st: Store, live: set<nat>, srcs: seq<nat>, dsts: seq<nat>) {
    |srcs| == |dsts| && forall k :: 0 <= k < |srcs| ==> SamePath(ss, sl, st, live, srcs[k], dsts[k])
  }

  ghost predicate SamePath(ss: Store, sl: set<nat>, st: Store, live: set<nat>, s: nat, d: nat) {
    Linked(ss, sl) && Linked(st, live) && s in sl && d in live && PathOf(ss, sl, s) == PathOf(st, live, d)
  }

  // What the parent of a pending destination node is still owed for it.
  ghost function Share(ss: Store, st: Store, s: nat, d: nat, id: nat): int {
    if s < |ss| && 0 < d < |st| && st[d].parent == id then ss[s].total else 0
  }

  ghost function Debt(ss: Store, st: Store, srcs: seq<nat>, dsts: seq<nat>, id: nat): int
    requires |srcs| == |dsts|
  {
    if srcs == [] then 0
    else
      var last := |srcs| - 1;
      Debt(ss, st, srcs[..last], dsts[..last], id) + Share(ss, st, srcs[last], dsts[last], id)
  }

  lemma DebtPush(ss: Store, st: Store, srcs: seq<nat>, dsts: seq<nat>, s: nat, d: nat, id: nat)
    requires |srcs| == |dsts|
    ensures Debt(ss, st, srcs + [s], dsts + [d], id) == Debt(ss, st, srcs, dsts, id) + Share(ss, st, s, d, id)
  {
    assert (srcs + [s])[..|srcs|] == srcs && (dsts + [d])[..|dsts|] == dsts;
  }

  lemma {:induction false} DebtSame(ss: Store, st: Store, st': Store, srcs: seq<nat>, dsts: seq<nat>, id: nat)
    requires |srcs| == |dsts|
    requires forall k :: 0 <= k < |dsts| ==>
               dsts[k] < |st| && dsts[k] < |st'| && st'[dsts[k]].parent == st[dsts[k]].parent
    ensures Debt(ss, st', srcs, dsts, id) == Debt(ss, st, srcs, dsts, id)
  {
    if srcs != [] {
      var last := |srcs| - 1;
      DebtSame(ss, st, st', srcs[..last], dsts[..last], id);
    }
  }

  // The source weight already added.
  ghost function PartTerms(ss: Store, sl: set<nat>, done: set<nat>, p: Path): nat -> int
    requires Linked(ss, sl)
  {
    (id: nat) => if id in done then TermAt(ss, sl, p, id) else 0
  }

  ghost function Part(ss: Store, sl: set<nat>, done: set<nat>, p: Path): int
    requires Linked(ss, sl)
  {
    Sum(PartTerms(ss, sl, done, p), |ss|)
  }

  lemma PartAdd(ss: Store, sl: set<nat>, done: set<nat>, n: nat, p: Path)
    requires Linked(ss, sl) && n in sl && n !in done
    ensures Part(ss, sl, done + {n}, p) == Part(ss, sl, done, p) + TermAt(ss, sl, p, n)
  {
    SumBump(PartTerms(ss, sl, done, p), PartTerms(ss, sl, done + {n}, p), |ss|, n);
  }

  lemma PartAll(ss: Store, sl: set<nat>, done: set<nat>, p: Path)
    requires Linked(ss, sl) && forall id :: id in sl && id != 0 ==> id in done
    ensures Part(ss, sl, done, p) == Weight(ss, sl, p)
  {
    SumSame(PartTerms(ss, sl, done, p), Terms(ss, sl, p), |ss|);
  }

  lemma PartNone(ss: Store, sl: set<nat>, p: Path)
    requires Linked(ss, sl)
    ensures Part(ss, sl, {}, p) == 0
  {
    SumZero(PartTerms(ss, sl, {}, p), |ss|);
  }

  // What a node is owed in all: its debt, and r more for node d.
  ghost function Owed(ss: Store, st: Store, srcs: seq<nat>, dsts: seq<nat>, d: nat, r: int, id: nat): int
    requires |srcs| == |dsts|
  {
    Debt(ss, st, srcs, dsts, id) + (if id == d then r else 0)
  }

  // Every node is balanced up to what it is owed.
  ghost predicate Balanced(ss: Store, st: Store, live: set<nat>, srcs: seq<nat>, dsts: seq<nat>, d: nat, r: int)
    requires Linked(st, live) && |srcs| == |dsts|
  {
    forall id :: id in live && id != 0 ==> LawAt(st, live, id, Owed(ss, st, srcs, dsts, d, r, id))
  }

  // The weights are those of the old store plus those of the source nodes done.
  ghost predicate Added(st0: Store, live0: set<nat>, ss: Store, sl: set<nat>, st: Store, live: set<nat>, done: set<nat>)
    requires Linked(st0, live0) && Linked(ss, sl) && Linked(st, live)
  {
    forall p :: Weight(st, live, p) == Weight(st0, live0, p) + Part(ss, sl, done, p)
  }

  /** The state of a merge into what was st0. */
  ghost predicate Merging(st0: Store, live0: set<nat>, ss: Store, sl: set<nat>, st: Store, live: set<nat>,
                          done: set<nat>, srcs: seq<nat>, dsts: seq<nat>, d: nat, r: int)
  {
    && Linked(st0, live0) && Linked(ss, sl) && Linked(st, live) && Sorted(st, live) && RootClean(st)
    && Matched(ss, sl, st, live, srcs, dsts)
    && Added(st0, live0, ss, sl, st, live, done)
    && Balanced(ss, st, live, srcs, dsts, d, r)
    && (NonNegative(st0, live0) && NonNegative(ss, sl) ==> NonNegative(st, live))
  }

  lemma StartMerge(ss: Store, sl: set<nat>, st: Store, live: set<nat>)
    requires Linked(ss, sl) && Linked(st, live) && Sorted(st, live) && RootClean(st) && Law(st, live)
    ensures Merging(st, live, ss, sl, st, live, {}, [0], [0], 0, 0)
  {
    forall p ensures Weight(st, live, p) == Weight(st, live, p) + Part(ss, sl, {}, p) { PartNone(ss, sl, p); }
    assert SamePath(ss, sl, st, live, 0, 0);
    forall id | id in live && id != 0 ensures LawAt(st, live, id, Owed(ss, st, [0], [0], 0, 0, id)) {
      assert LawAt(st, live, id, 0);
      DebtPush(ss, st, [], [], 0, 0, id);
      assert [] + [0] == [0];
    }
  }

  // --- Adding one source node to its destination ---

  // Adding to d changes what is amiss at d, and at its parent.
  lemma AddedTotals(st: Store, st': Store, live: set<nat>, d: nat, self: int, total: int, id: nat, owed: int)
    requires Linked(st, live) && Linked(st', live) && d in live && id in live
    requires st' == AddTo(st, d, self, total) && LawAt(st, live, id, owed)
    ensures var here := if id == d then total - self else 0;
            var below := if d != 0 && st[d].parent == id then total else 0;
            LawAt(st', live, id, owed + here - below)
  {
    BumpTotal(st, st', live, d, total, id);
  }

  lemma AddedOwed(ss: Store, st: Store, st': Store, srcs: seq<nat>, dsts: seq<nat>, n: nat, d: nat, r: int, id: nat)
    requires |srcs| == |dsts| && n < |ss| && d < |st|
    requires forall k :: 0 <= k < |dsts| ==>
               dsts[k] < |st| && dsts[k] < |st'| && st'[dsts[k]].parent == st[dsts[k]].parent
    ensures var here := if id == d then r else 0;
            var below := if d != 0 && st[d].parent == id then ss[n].total else 0;
            Owed(ss, st', srcs, dsts, d, r, id) == Owed(ss, st, srcs + [n], dsts + [d], 0, 0, id) + here - below
  {
    DebtPush(ss, st, srcs, dsts, n, d, id);
    DebtSame(ss, st, st', srcs, dsts, id);
  }

  lemma AddNodeLaw(ss: Store, sl: set<nat>, st: Store, st': Store, live: set<nat>, srcs: seq<nat>, dsts: seq<nat>,
                   n: nat, d: nat, id: nat)
    requires Linked(ss, sl) && Law(ss, sl) && Linked(st, live) && n in sl && d in live && (n == 0 <==> d == 0)
    requires |srcs| == |dsts| && forall k :: 0 <= k < |dsts| ==> dsts[k] in live
    requires st' == AddTo(st, d, ss[n].self, ss[n].total)
    requires Linked(st', live) && id in live && id != 0
    requires LawAt(st, live, id, Owed(ss, st, srcs + [n], dsts + [d], 0, 0, id))
    ensures LawAt(st', live, id, Owed(ss, st', srcs, dsts, d, KidTotals(ss, sl, n), id))
  {
    AddedOwed(ss, st, st', srcs, dsts, n, d, KidTotals(ss, sl, n), id);
    AddedTotals(st, st', live, d, ss[n].self, ss[n].total, id, Owed(ss, st, srcs + [n], dsts + [d], 0, 0, id));
    if id == d { assert LawAt(ss, sl, n, 0); }
  }

  lemma AddNodeWeight(ss: Store, sl: set<nat>, st: Store, st': Store, live: set<nat>, n: nat, d: nat, p: Path)
    requires Linked(ss, sl) && Linked(st, live) && n in sl && d in live
    requires PathOf(ss, sl, n) == PathOf(st, live, d) && (n == 0 <==> d == 0)
    requires st' == AddTo(st, d, ss[n].self, ss[n].total)
    ensures Linked(st', live) && Weight(st', live, p) == Weight(st, live, p) + TermAt(ss, sl, p, n)
  {
    SameShapeLinked(st, st', live);
    BumpWeight(st, st', live, d, ss[n].self, p);
  }

  lemma RootsMatch(ss: Store, sl: set<nat>, st: Store, live: set<nat>, n: nat, d: nat)
    requires Linked(ss, sl) && Linked(st, live) && SamePath(ss, sl, st, live, n, d)
    ensures n == 0 <==> d == 0
  {
    if n != 0 { assert UpLink(ss, sl, n); }
    if d != 0 { assert UpLink(st, live, d); }
  }

  lemma AddNodeMatched(ss: Store, sl: set<nat>, st: Store, st': Store, live: set<nat>, srcs: seq<nat>, dsts: seq<nat>)
    requires Linked(ss, sl) && Linked(st, live) && Linked(st', live) && SameShape(st, st', live)
    requires Matched(ss, sl, st, live, srcs, dsts)
    ensures Matched(ss, sl, st', live, srcs, dsts)
  {
    forall k | 0 <= k < |srcs| ensures SamePath(ss, sl, st', live, srcs[k], dsts[k]) {
      assert SamePath(ss, sl, st, live, srcs[k], dsts[k]);
      SameShapePath(st, st', live, dsts[k]);
    }
  }

  lemma LastMatched(ss: Store, sl: set<nat>, st: Store, live: set<nat>, srcs: seq<nat>, dsts: seq<nat>, n: nat, d: nat)
    requires Linked(ss, sl) && Linked(st, live) && |srcs| == |dsts|
    requires Matched(ss, sl, st, live, srcs + [n], dsts + [d])
    ensures SamePath(ss, sl, st, live, n, d) && Matched(ss, sl, st, live, srcs, dsts)
    ensures forall k :: 0 <= k < |dsts| ==> dsts[k] in live
  {
    var srcs1, dsts1 := srcs + [n], dsts + [d];
    assert SamePath(ss, sl, st, live, srcs1[|srcs|], dsts1[|dsts|]);
    forall k | 0 <= k < |srcs| ensures SamePath(ss, sl, st, live, srcs[k], dsts[k]) {
      assert SamePath(ss, sl, st, live, srcs1[k], dsts1[k]);
    }
  }

  lemma AddNodeAdded(st0: Store, live0: set<nat>, ss: Store, sl: set<nat>, st: Store, live: set<nat>, done: set<nat>,
                     n: nat, d: nat, st': Store)
    requires Linked(st0, live0) && Linked(ss, sl) && Linked(st, live) && SamePath(ss, sl, st, live, n, d)
    requires Added(st0, live0, ss, sl, st, live, done) && n !in done && (n == 0 <==> d == 0)
    requires st' == AddTo(st, d, ss[n].self, ss[n].total)
    ensures Linked(st', live) && Added(st0, live0, ss, sl, st', live, done + {n})
  {
    SameShapeLinked(st, st', live);
    forall p ensures Weight(st', live, p) == Weight(st0, live0, p) + Part(ss, sl, done + {n}, p) {
      AddNodeWeight(ss, sl, st, st', live, n, d, p);
      PartAdd(ss, sl, done, n, p);
    }
  }

  lemma AddNodeBalanced(ss: Store, sl: set<nat>, st: Store, live: set<nat>, srcs: seq<nat>, dsts: seq<nat>,
                        n: nat, d: nat, st': Store)
    requires Linked(ss, sl) && Law(ss, sl) && RootClean(ss) && Linked(st, live) && n in sl && d in live &&
             (n == 0 <==> d == 0)
    requires |srcs| == |dsts| && forall k :: 0 <= k < |dsts| ==> dsts[k] in live
    requires Balanced(ss, st, live, srcs + [n], dsts + [d], 0, 0)
    requires st' == AddTo(st, d, ss[n].self, ss[n].total)
    requires Linked(st', live)
    ensures Balanced(ss, st', live, srcs, dsts, d, KidTotals(ss, sl, n))
  {
    forall id | id in live && id != 0
      ensures LawAt(st', live, id, Owed(ss, st', srcs, dsts, d, KidTotals(ss, sl, n), id))
    {
      AddNodeLaw(ss, sl, st, st', live, srcs, dsts, n, d, id);
    }
  }

  lemma AddNodeNonNegative(ss: Store, sl: set<nat>, st: Store, live: set<nat>, n: nat, d: nat, st': Store)
    requires Linked(ss, sl) && Linked(st, live) && n in sl && d in live && Linked(st', live)
    requires st' == AddTo(st, d, ss[n].self, ss[n].total)
    ensures NonNegative(ss, sl) && NonNegative(st, live) ==> NonNegative(st', live)
  {
  }

  lemma AddNode(st0: Store, live0: set<nat>, ss: Store, sl: set<nat>, st: Store, live: set<nat>, done: set<nat>,
                srcs: seq<nat>, dsts: seq<nat>, n: nat, d: nat, st': Store)
    requires Linked(st0, live0) && Linked(ss, sl) && Law(ss, sl) && RootClean(ss) && |srcs| == |dsts|
    requires Merging(st0, live0, ss, sl, st, live, done, srcs + [n], dsts + [d], 0, 0) && n !in done
    requires n in sl && d in live && Linked(st, live)
    requires st' == AddTo(st, d, ss[n].self, ss[n].total)
    ensures Merging(st0, live0, ss, sl, st', live, done + {n}, srcs, dsts, d, KidTotals(ss, sl, n))
    ensures SamePath(ss, sl, st', live, n, d)
  {
    LastMatched(ss, sl, st, live, srcs, dsts, n, d);
    RootsMatch(ss, sl, st, live, n, d);
    AddNodeAdded(st0, live0, ss, sl, st, live, done, n, d, st');
    AddNodeBalanced(ss, sl, st, live, srcs, dsts, n, d, st');
    AddNodeNonNegative(ss, sl, st, live, n, d, st');
    AddNodeMatched(ss, sl, st, st', live, srcs, dsts);
    AddNodeShape(ss, sl, st, live, n, d, st');
  }

  lemma AddNodeShape(ss: Store, sl: set<nat>, st: Store, live: set<nat>, n: nat, d: nat, st': Store)
    requires Linked(ss, sl) && n in sl && Linked(st, live) && Sorted(st, live) && d in live &&
             SamePath(ss, sl, st, live, n, d)
    requires st' == AddTo(st, d, ss[n].self, ss[n].total)
    ensures Linked(st', live) && Sorted(st', live) && SamePath(ss, sl, st', live, n, d)
  {
    SameShapeLinked(st, st', live);
    SameShapeSorted(st, st', live);
    SameShapePath(st, st', live, d);
  }

  // --- Queueing one child ---

  lemma QueueDebt(ss: Store, sl: set<nat>, st: Store, live: set<nat>, st': Store, live': set<nat>,
                  srcs: seq<nat>, dsts: seq<nat>, d: nat, c: nat, dc: nat, id: nat)
    requires Linked(ss, sl) && Linked(st, live) && Grown(st, live, st', live') && d in live && c in sl
    requires |srcs| == |dsts| && forall k :: 0 <= k < |dsts| ==> dsts[k] in live
    requires dc in live' && dc != 0 && st'[dc].parent == d
    ensures Debt(ss, st', srcs + [c], dsts + [dc], id) ==
            (if id in live then Debt(ss, st, srcs, dsts, id) else 0) + (if id == d then ss[c].total else 0)
  {
    forall k | 0 <= k < |dsts| ensures st'[dsts[k]].parent == st[dsts[k]].parent {
      assert SameNode(st, live, st', live', dsts[k]);
    }
    DebtSame(ss, st, st', srcs, dsts, id);
    DebtPush(ss, st', srcs, dsts, c, dc, id);
    if id !in live { NoDebt(ss, sl, st, live, srcs, dsts, id); }
  }

  lemma QueueLaw(ss: Store, sl: set<nat>, st: Store, live: set<nat>, st': Store, live': set<nat>,
                 srcs: seq<nat>, dsts: seq<nat>, d: nat, r: int, c: nat, r': int, dc: nat, id: nat)
    requires Linked(ss, sl) && Linked(st, live) && Grown(st, live, st', live') && d in live && c in sl
    requires r' == r - ss[c].total
    requires |srcs| == |dsts| && forall k :: 0 <= k < |dsts| ==> dsts[k] in live
    requires id in live && id != 0 ==> LawAt(st, live, id, Owed(ss, st, srcs, dsts, d, r, id))
    requires dc in live' && dc != 0 && st'[dc].parent == d && id in live' && id != 0
    ensures LawAt(st', live', id, Owed(ss, st', srcs + [c], dsts + [dc], d, r', id))
  {
    QueueDebt(ss, sl, st, live, st', live', srcs, dsts, d, c, dc, id);
    if id in live {
      assert SameNode(st, live, st', live', id);
    } else {
      assert EmptyNode(st', live', id);
    }
  }

  // A node that did not exist is owed nothing.
  lemma {:induction false} NoDebt(ss: Store, sl: set<nat>, st: Store, live: set<nat>, srcs: seq<nat>, dsts: seq<nat>,
                                  id: nat)
    requires Linked(st, live) && |srcs| == |dsts| && (forall k :: 0 <= k < |dsts| ==> dsts[k] in live) && id !in live
    ensures Debt(ss, st, srcs, dsts, id) == 0
  {
    if srcs != [] {
      var last := |srcs| - 1;
      NoDebt(ss, sl, st, live, srcs[..last], dsts[..last], id);
      if dsts[last] != 0 { assert UpLink(st, live, dsts[last]); }
    }
  }

  lemma QueueMatched(ss: Store, sl: set<nat>, st: Store, live: set<nat>, st': Store, live': set<nat>,
                     srcs: seq<nat>, dsts: seq<nat>, c: nat, dc: nat)
    requires Linked(ss, sl) && Linked(st, live) && Grown(st, live, st', live')
    requires Matched(ss, sl, st, live, srcs, dsts) && SamePath(ss, sl, st', live', c, dc)
    ensures Matched(ss, sl, st', live', srcs + [c], dsts + [dc])
  {
    var srcs', dsts' := srcs + [c], dsts + [dc];
    forall k | 0 <= k < |srcs'| ensures SamePath(ss, sl, st', live', srcs'[k], dsts'[k]) {
      if k < |srcs| {
        assert SamePath(ss, sl, st, live, srcs[k], dsts[k]);
        assert SameNode(st, live, st', live', dsts[k]);
      }
    }
  }

  lemma QueueBalanced(ss: Store, sl: set<nat>, st: Store, live: set<nat>, st': Store, live': set<nat>,
                      srcs: seq<nat>, dsts: seq<nat>, d: nat, r: int, c: nat, r': int, dc: nat)
    requires Linked(ss, sl) && Linked(st, live) && Grown(st, live, st', live') && d in live && c in sl
    requires Matched(ss, sl, st, live, srcs, dsts) && Balanced(ss, st, live, srcs, dsts, d, r)
    requires dc in live' && dc != 0 && st'[dc].parent == d && r' == r - ss[c].total
    ensures Balanced(ss, st', live', srcs + [c], dsts + [dc], d, r')
  {
    forall k | 0 <= k < |dsts| ensures dsts[k] in live { assert SamePath(ss, sl, st, live, srcs[k], dsts[k]); }
    forall id | id in live' && id != 0
      ensures LawAt(st', live', id, Owed(ss, st', srcs + [c], dsts + [dc], d, r', id))
    {
      QueueLaw(ss, sl, st, live, st', live', srcs, dsts, d, r, c, r', dc, id);
    }
  }

  lemma QueueChild(st0: Store, live0: set<nat>, ss: Store, sl: set<nat>, st: Store, live: set<nat>, done: set<nat>,
                   srcs: seq<nat>, dsts: seq<nat>, d: nat, r: int, c: nat, r': int, st': Store, live': set<nat>,
                   dc: nat)
    requires Linked(st0, live0) && Linked(ss, sl) && d in live && c in sl && r' == r - ss[c].total
    requires Merging(st0, live0, ss, sl, st, live, done, srcs, dsts, d, r)
    requires Grown(st, live, st', live') && Sorted(st', live') && dc in live' && dc != 0 && st'[dc].parent == d
    requires SamePath(ss, sl, st', live', c, dc)
    ensures Merging(st0, live0, ss, sl, st', live', done, srcs + [c], dsts + [dc], d, r')
  {
    QueueMatched(ss, sl, st, live, st', live', srcs, dsts, c, dc);
    QueueBalanced(ss, sl, st, live, st', live', srcs, dsts, d, r, c, r', dc);
    assert SameNode(st, live, st', live', 0);
    GrownNonNegative(st, live, st', live');
    forall p ensures Weight(st', live', p) == Weight(st0, live0, p) + Part(ss, sl, done, p) {
      assert Weight(st', live', p) == Weight(st, live, p);
    }
  }

  // The same, from what inserting the child of d under its name gives.
  lemma QueueInserted(st0: Store, live0: set<nat>, ss: Store, sl: set<nat>, st: Store, live: set<nat>, done: set<nat>,
                      srcs: seq<nat>, dsts: seq<nat>, n: nat, d: nat, r: int, c: nat, r': int, st': Store,
                      live': set<nat>, dc: nat)
    requires Merging(st0, live0, ss, sl, st, live, done, srcs, dsts, d, r) && SamePath(ss, sl, st, live, n, d)
    requires DownLink(ss, sl, n, c) && r' == r - ss[c].total
    requires Grown(st, live, st', live') && Sorted(st', live') && dc in live' && dc != 0 && st'[dc].parent == d
    requires PathOf(st', live', dc) == PathOf(st, live, d) + [ss[c].name]
    ensures Merging(st0, live0, ss, sl, st', live', done, srcs + [c], dsts + [dc], d, r')
    ensures SamePath(ss, sl, st', live', n, d)
  {
    assert SamePath(ss, sl, st', live', c, dc);
    QueueChild(st0, live0, ss, sl, st, live, done, srcs, dsts, d, r, c, r', st', live', dc);
    assert SameNode(st, live, st', live', d);
  }

  lemma EndMerge(st0: Store, live0: set<nat>, ss: Store, sl: set<nat>, st: Store, live: set<nat>, done: set<nat>)
    requires Linked(st0, live0) && Linked(ss, sl)
    requires Merging(st0, live0, ss, sl, st, live, done, [], [], 0, 0)
    requires forall id :: id in sl && id != 0 ==> id in done
    ensures Law(st, live) && forall p :: Weight(st, live, p) == Weight(st0, live0, p) + Weight(ss, sl, p)
  {
    forall id | id in live && id != 0 ensures LawAt(st, live, id, 0) {
      assert LawAt(st, live, id, Owed(ss, st, [], [], 0, 0, id));
    }
    forall p ensures Weight(st, live, p) == Weight(st0, live0, p) + Weight(ss, sl, p) { PartAll(ss, sl, done, p); }
  }

  // Once nothing more is owed to d, it is a node like any other.
  lemma SettleNode(st0: Store, live0: set<nat>, ss: Store, sl: set<nat>, st: Store, live: set<nat>, done: set<nat>,
                   srcs: seq<nat>, dsts: seq<nat>, d: nat)
    requires Linked(st0, live0) && Linked(ss, sl) && Merging(st0, live0, ss, sl, st, live, done, srcs, dsts, d, 0)
    ensures Merging(st0, live0, ss, sl, st, live, done, srcs, dsts, 0, 0)
  {
    forall id | id in live && id != 0 ensures LawAt(st, live, id, Owed(ss, st, srcs, dsts, 0, 0, id)) {
      assert LawAt(st, live, id, Owed(ss, st, srcs, dsts, d, 0, id));
    }
  }

  // The totals of the children of n from the i-th on.
  ghost function Remaining(ss: Store, sl: set<nat>, n: nat, i: nat): int
    requires Linked(ss, sl) && n in sl && i <= |ss[n].children|
  {
    assert forall k :: 0 <= k < |ss[n].children| ==> DownLink(ss, sl, n, ss[n].children[k]);
    SumTotals(ss, ss[n].children[i..])
  }

  lemma RemainingStep(ss: Store, sl: set<nat>, n: nat)
    requires Linked(ss, sl) && n in sl
    ensures Remaining(ss, sl, n, 0) == KidTotals(ss, sl, n) && Remaining(ss, sl, n, |ss[n].children|) == 0
    ensures forall i :: 0 <= i < |ss[n].children| ==>
              DownLink(ss, sl, n, ss[n].children[i])
              && Remaining(ss, sl, n, i + 1) == Remaining(ss, sl, n, i) - ss[ss[n].children[i]].total
  {
    var ch := ss[n].children;
    assert ch[0..] == ch;
    forall i | 0 <= i < |ch|
      ensures DownLink(ss, sl, n, ch[i]) && Remaining(ss, sl, n, i + 1) == Remaining(ss, sl, n, i) - ss[ch[i]].total
    {
      assert ch[i..][1..] == ch[i + 1..];
    }
  }

  // Queueing the i-th child of n, from what inserting its name under d gives.
  lemma QueueNext(st0: Store, live0: set<nat>, ss: Store, sl: set<nat>, st: Store, live: set<nat>, done: set<nat>,
                  srcs: seq<nat>, dsts: seq<nat>, n: nat, d: nat, i: nat, st': Store, live': set<nat>, dc: nat)
    requires Linked(ss, sl) && n in sl && i < |ss[n].children| && SamePath(ss, sl, st, live, n, d)
    requires Merging(st0, live0, ss, sl, st, live, done, srcs, dsts, d, Remaining(ss, sl, n, i))
    requires Grown(st, live, st', live') && Sorted(st', live') && dc in live' && dc != 0 && st'[dc].parent == d
    requires ss[n].children[i] < |ss|
    requires PathOf(st', live', dc) == PathOf(st, live, d) + [ss[ss[n].children[i]].name]
    ensures Merging(st0, live0, ss, sl, st', live', done, srcs + [ss[n].children[i]], dsts + [dc], d,
                    Remaining(ss, sl, n, i + 1))
    ensures SamePath(ss, sl, st', live', n, d)
  {
    RemainingStep(ss, sl, n);
    QueueInserted(st0, live0, ss, sl, st, live, done, srcs, dsts, n, d, Remaining(ss, sl, n, i), ss[n].children[i],
                  Remaining(ss, sl, n, i + 1), st', live', dc);
  }

  // The source nodes still to come, after n has been taken from the list.
  ghost predicate SourceLeft(ss: Store, sl: set<nat>, done: set<nat>, srcs: seq<nat>)
    requires Linked(ss, sl)
  {
    if 0 in done then Frontier(ss, sl, done - {0}, {}, srcs) else done == {} && srcs == [0]
  }

  lemma TakeSource(ss: Store, sl: set<nat>, done: set<nat>, srcs: seq<nat>, n: nat)
    requires Linked(ss, sl) && SourceLeft(ss, sl, done, srcs + [n])
    ensures n in sl && n !in done && SourceLeft(ss, sl, done + {n}, srcs + ss[n].children)
  {
    var list := srcs + [n];
    assert list[|srcs|] == n && list[..|srcs|] == srcs;
    if 0 in done {
      PopLast(list);
      Expand(ss, sl, done - {0}, {}, list, n, srcs);
      assert done + {n} - {0} == done - {0} + {n};
    } else {
      assert n == 0 && srcs == [];
      FrontierStart(ss, sl);
      assert done + {n} - {0} == {};
      assert srcs + ss[n].children == ss[n].children;
    }
  }

  lemma SourceFinished(ss: Store, sl: set<nat>, done: set<nat>)
    requires Linked(ss, sl) && SourceLeft(ss, sl, done, [])
    ensures forall id :: id in sl && id != 0 ==> id in done
  {
    forall id | id in sl && id != 0 ensures id in done { VisitedAll(ss, sl, done - {0}, id); }
  }
}
