/** The pruned top-k search: the minimum total a node needs to be among the maxNodes largest. */
module TreeMinValue {
  import opened Collections
  import opened TreeStore
  import opened TreeWalk
  import opened MinHeap

  /** r is the k-th largest total among the nodes ids. */
  ghost predicate KthLargest(st: Store, ids: set<nat>, k: nat, r: int)
    requires forall id :: id in ids ==> id < |st|
  {
    |set id | id in ids && st[id].total > r| < k <= |set id | id in ids && st[id].total >= r|
  }

  ghost function TotalsOf(st: Store, ids: seq<nat>): (r: seq<int>)
    requires forall k :: 0 <= k < |ids| ==> ids[k] < |st|
    ensures |r| == |ids|
  {
    seq(|ids|, k requires 0 <= k < |ids| => st[ids[k]].total)
  }

  // The heap holds the totals of the kept nodes, and nothing visited or skipped beats its minimum.
  ghost predicate Top(st: Store, live: set<nat>, done: set<nat>, skipped: set<nat>, kept: seq<nat>, hs: seq<int>,
                      k: nat)
    requires Linked(st, live) && done <= live && skipped <= live
  {
    && IsHeap(hs) && |hs| <= k && Distinct(kept)
    && (forall i :: 0 <= i < |kept| ==> kept[i] in done)
    && multiset(hs) == multiset(TotalsOf(st, kept))
    && (forall id :: id in done && id !in kept ==> Beaten(st, hs, k, id))
    && (forall id :: id in skipped ==> Beaten(st, hs, k, id))
  }

  ghost predicate Beaten(st: Store, hs: seq<int>, k: nat, id: nat) {
    |hs| == k > 0 && id < |st| && st[id].total <= hs[0]
  }

  lemma SameSize(s: seq<int>, t: seq<int>)
    requires multiset(s) == multiset(t)
    ensures |s| == |t|
  {
    assert |multiset(s)| == |s| && |multiset(t)| == |t|;
  }

  lemma KeepMore(st: Store, live: set<nat>, done: set<nat>, skipped: set<nat>, kept: seq<nat>, hs: seq<int>, k: nat,
                 n: nat, hs': seq<int>)
    requires Linked(st, live) && done <= live && skipped <= live && n in live && n !in done
    requires Top(st, live, done, skipped, kept, hs, k) && |hs| < k
    requires IsHeap(hs') && multiset(hs') == multiset(hs) + multiset{st[n].total}
    ensures Top(st, live, done + {n}, skipped, kept + [n], hs', k)
  {
    var kept' := kept + [n];
    assert TotalsOf(st, kept') == TotalsOf(st, kept) + [st[n].total];
    SameSize(hs, TotalsOf(st, kept));
    SameSize(hs', TotalsOf(st, kept'));
    assert n in kept' by { assert kept'[|kept|] == n; }
    assert forall id :: id in kept ==> id in kept';
  }

  // Exchanging the i-th kept node for n exchanges their totals.
  lemma Exchange(st: Store, kept: seq<nat>, i: nat, n: nat, kept': seq<nat>)
    requires i < |kept| && n < |st| && forall k :: 0 <= k < |kept| ==> kept[k] < |st|
    requires n !in kept && Distinct(kept) && kept' == kept[i := n]
    ensures Distinct(kept') && n in kept' && (forall x :: x in kept && x != kept[i] ==> x in kept')
    ensures multiset(TotalsOf(st, kept')) + multiset{st[kept[i]].total} ==
            multiset(TotalsOf(st, kept)) + multiset{st[n].total}
  {
    assert TotalsOf(st, kept') == TotalsOf(st, kept)[i := st[n].total];
    assert kept'[i] == n;
    forall x | x in kept && x != kept[i] ensures x in kept' {
      var j :| 0 <= j < |kept| && kept[j] == x;
      assert kept'[j] == x;
    }
  }

  lemma KeepBetter(st: Store, live: set<nat>, done: set<nat>, skipped: set<nat>, kept: seq<nat>, hs: seq<int>, k: nat,
                   n: nat, hs': seq<int>) returns (kept': seq<nat>)
    requires Linked(st, live) && done <= live && skipped <= live && n in live && n !in done
    requires Top(st, live, done, skipped, kept, hs, k) && |hs| == k > 0 && st[n].total > hs[0]
    requires IsHeap(hs') && multiset(hs') + multiset{hs[0]} == multiset(hs) + multiset{st[n].total}
    ensures Top(st, live, done + {n}, skipped, kept', hs', k)
  {
    var i := KeptWith(st, kept, hs);
    kept' := kept[i := n];
    Exchange(st, kept, i, n, kept');
    Cancel(multiset(hs'), multiset(TotalsOf(st, kept')), hs[0]);
    SameSize(hs', TotalsOf(st, kept'));
    SameSize(hs, TotalsOf(st, kept));
    MinGrows(hs, hs', st[n].total);
    forall id | id in done + {n} && id !in kept' ensures Beaten(st, hs', k, id) {
      if id !in kept { assert Beaten(st, hs, k, id); }
    }
    forall id | id in skipped ensures Beaten(st, hs', k, id) { assert Beaten(st, hs, k, id); }
  }

  // Some kept node has the minimum total.
  lemma KeptWith(st: Store, kept: seq<nat>, hs: seq<int>) returns (i: nat)
    requires |hs| > 0 && forall k :: 0 <= k < |kept| ==> kept[k] < |st|
    requires multiset(hs) == multiset(TotalsOf(st, kept))
    ensures i < |kept| && st[kept[i]].total == hs[0]
  {
    assert hs[0] in multiset(hs);
    assert hs[0] in TotalsOf(st, kept);
    i :| 0 <= i < |kept| && TotalsOf(st, kept)[i] == hs[0];
  }

  lemma KeptAtLeast(st: Store, kept: seq<nat>, hs: seq<int>, i: nat)
    requires |hs| > 0 && IsHeap(hs) && i < |kept| && forall k :: 0 <= k < |kept| ==> kept[k] < |st|
    requires multiset(hs) == multiset(TotalsOf(st, kept))
    ensures st[kept[i]].total >= hs[0]
  {
    var x := TotalsOf(st, kept)[i];
    assert x in multiset(TotalsOf(st, kept));
    assert x in hs;
    var q :| 0 <= q < |hs| && hs[q] == x;
    RootIsMin(hs, q);
  }

  lemma MinGrows(hs: seq<int>, hs': seq<int>, x: int)
    requires IsHeap(hs) && |hs| > 0 && |hs'| > 0 && x > hs[0]
    requires multiset(hs') + multiset{hs[0]} == multiset(hs) + multiset{x}
    ensures hs'[0] >= hs[0]
  {
    var y := hs'[0];
    assert y in multiset(hs') + multiset{hs[0]};
    if y != x {
      assert y in multiset(hs);
      var i :| 0 <= i < |hs| && hs[i] == y;
      RootIsMin(hs, i);
    }
  }

  // So a node below a skipped one is beaten as well.
  lemma {:induction false} BelowSkipped(st: Store, live: set<nat>, done: set<nat>, skipped: set<nat>, m: int, id: nat)
    requires Linked(st, live) && Law(st, live) && NonNegative(st, live) && Frontier(st, live, done, skipped, [])
    requires forall x :: x in skipped ==> x < |st| && st[x].total <= m
    requires id in live && id != 0 && id !in done
    ensures st[id].total <= m
    decreases st[id].depth
  {
    if id !in skipped {
      assert Unreached(st, done, id);
      ChildBelowParent(st, live, id);
      BelowSkipped(st, live, done, skipped, m, st[id].parent);
    }
  }

  ghost function Elements(s: seq<nat>): set<nat> {
    set x | x in s
  }

  lemma {:induction false} SeqAsSet(s: seq<nat>)
    requires Distinct(s)
    ensures |Elements(s)| == |s|
  {
    if s != [] {
      var last := |s| - 1;
      SeqAsSet(s[..last]);
      assert s == s[..last] + [s[last]];
      assert s[last] !in s[..last];
      assert Elements(s) == Elements(s[..last]) + {s[last]};
    }
  }

  lemma SubsetSize(a: set<nat>, b: set<nat>)
    requires a <= b
    ensures |a| <= |b|
  {
    assert b == a + (b - a);
  }

  // A search that ends with fewer than k totals has seen every node.
  lemma FullHeap(st: Store, live: set<nat>, done: set<nat>, skipped: set<nat>, kept: seq<nat>, hs: seq<int>, k: nat)
    requires Linked(st, live) && Frontier(st, live, done, skipped, []) && Top(st, live, done, skipped, kept, hs, k)
    requires k < |live - {0}|
    ensures |hs| == k
  {
    SameSize(hs, TotalsOf(st, kept));
    if |hs| < k {
      assert skipped == {};
      forall id | id in live - {0} ensures id in Elements(kept) {
        VisitedAll(st, live, done, id);
        assert id in kept || Beaten(st, hs, k, id);
      }
      SeqAsSet(kept);
      SubsetSize(live - {0}, Elements(kept));
    }
  }

  // A total above the minimum belongs to a kept node.
  lemma AboveIsKept(st: Store, live: set<nat>, done: set<nat>, skipped: set<nat>, kept: seq<nat>, hs: seq<int>, k: nat,
                    x: nat)
    requires Linked(st, live) && Law(st, live) && NonNegative(st, live) && Frontier(st, live, done, skipped, [])
    requires Top(st, live, done, skipped, kept, hs, k) && |hs| == k > 0
    requires x in live && x != 0 && st[x].total > hs[0]
    ensures x in kept
  {
    forall y | y in skipped ensures y < |st| && st[y].total <= hs[0] { assert Beaten(st, hs, k, y); }
    if x !in done { BelowSkipped(st, live, done, skipped, hs[0], x); }
    assert x in kept || Beaten(st, hs, k, x);
  }

  lemma AtLeastMinimum(st: Store, ids: set<nat>, kept: seq<nat>, hs: seq<int>)
    requires (forall k :: 0 <= k < |kept| ==> kept[k] < |st| && kept[k] in ids) && Distinct(kept) && hs != []
    requires forall j :: 0 <= j < |kept| ==> st[kept[j]].total >= hs[0]
    requires forall id :: id in ids ==> id < |st|
    ensures |kept| <= |set id | id in ids && st[id].total >= hs[0]|
  {
    var atLeast := set id | id in ids && st[id].total >= hs[0];
    SeqAsSet(kept);
    forall x | x in Elements(kept) ensures x in atLeast {
      var j :| 0 <= j < |kept| && kept[j] == x;
    }
    SubsetSize(Elements(kept), atLeast);
  }

  lemma FewerAbove(kept: seq<nat>, above: set<nat>, i: nat)
    requires Distinct(kept) && i < |kept| && forall x :: x in above ==> x in Elements(kept) && x != kept[i]
    ensures |above| < |kept|
  {
    SeqAsSet(kept);
    assert kept[i] in Elements(kept);
    SubsetSize(above, Elements(kept) - {kept[i]});
  }

  lemma MinimumIsKth(st: Store, live: set<nat>, done: set<nat>, skipped: set<nat>, kept: seq<nat>, hs: seq<int>, k: nat)
    requires Linked(st, live) && Law(st, live) && NonNegative(st, live) && Frontier(st, live, done, skipped, [])
    requires Top(st, live, done, skipped, kept, hs, k) && |hs| == k > 0
    ensures KthLargest(st, live - {0}, k, hs[0])
  {
    var r, ids := hs[0], live - {0};
    var i := KeptWith(st, kept, hs);
    SameSize(hs, TotalsOf(st, kept));
    forall j | 0 <= j < |kept| ensures st[kept[j]].total >= r { KeptAtLeast(st, kept, hs, j); }
    AtLeastMinimum(st, ids, kept, hs);
    var above := set id | id in ids && st[id].total > r;
    forall x | x in above ensures x in Elements(kept) && x != kept[i] {
      AboveIsKept(st, live, done, skipped, kept, hs, k, x);
    }
    FewerAbove(kept, above, i);
  }

  /** Returns 0 when every node fits, and otherwise the maxNodes-th largest total of the whole tree,
      although whole subtrees are never looked at. */
  method MinValue(st: Store, ghost live: set<nat>, maxNodes: int) returns (r: int)
    requires Linked(st, live) && Law(st, live) && NonNegative(st, live)
    ensures maxNodes < 1 || |live - {0}| <= maxNodes ==> r == 0
    ensures 1 <= maxNodes < |live - {0}| ==> KthLargest(st, live - {0}, maxNodes, r)
  {
    if maxNodes < 1 {
      return 0;
    }
    var treeSize := Size(st, live);
    if treeSize <= maxNodes {
      return 0;
    }
    var h, len := LargestTotals(st, live, maxNodes);
    r := if len < maxNodes then 0 else h[0];
  }

  // The search itself: a node that cannot enter the full heap is dropped with everything below it.
  method LargestTotals(st: Store, ghost live: set<nat>, maxNodes: nat) returns (h: array<int>, len: nat)
    requires Linked(st, live) && Law(st, live) && NonNegative(st, live) && 0 < maxNodes < |live - {0}|
    ensures len == maxNodes == h.Length && KthLargest(st, live - {0}, maxNodes, h[0])
  {
    h := new int[maxNodes];
    len := 0;
    var nodes := st[0].children;
    ghost var done: set<nat>, skipped: set<nat>, kept: seq<nat>, left := {}, {}, [], live;
    FrontierStart(st, live);
    while |nodes| > 0
      invariant fresh(h) && len <= h.Length == maxNodes
      invariant Frontier(st, live, done, skipped, nodes)
      invariant Top(st, live, done, skipped, kept, h[..len], maxNodes)
      invariant forall id :: id in left <==> id in live && id !in done && id !in skipped
      decreases left
    {
      var last := |nodes| - 1;
      var n, rest := nodes[last], nodes[..last];
      PopLast(nodes);
      if len >= maxNodes && st[n].total <= h[0] {
        Skip(st, live, done, skipped, nodes, n, rest);
        skipped := skipped + {n};
        nodes := rest;
      } else {
        Expand(st, live, done, skipped, nodes, n, rest);
        h, len, kept := Admit(st, live, done, skipped, kept, h, len, maxNodes, n);
        done := done + {n};
        nodes := rest + st[n].children;
      }
      left := left - {n};
    }
    FullHeap(st, live, done, skipped, kept, h[..len], maxNodes);
    MinimumIsKth(st, live, done, skipped, kept, h[..len], maxNodes);
  }

  // Makes room if the heap is full, then pushes the total of n.
  method Admit(st: Store, ghost live: set<nat>, ghost done: set<nat>, ghost skipped: set<nat>, ghost kept: seq<nat>,
               h: array<int>, len: nat, maxNodes: nat, n: nat)
    returns (h': array<int>, len': nat, ghost kept': seq<nat>)
    requires Linked(st, live) && done <= live && skipped <= live && n in live && n !in done
    requires len <= h.Length == maxNodes && maxNodes > 0
    requires Top(st, live, done, skipped, kept, h[..len], maxNodes)
    requires len >= maxNodes ==> st[n].total > h[0]
    modifies h
    ensures h' == h && len' <= h.Length
    ensures Top(st, live, done + {n}, skipped, kept', h'[..len'], maxNodes)
  {
    ghost var hs := h[..len];
    len' := len;
    if len >= maxNodes {
      len' := Pop(h, len);
    }
    h', len' := Push(h, len', st[n].total);
    if |hs| < maxNodes {
      kept' := kept + [n];
      KeepMore(st, live, done, skipped, kept, hs, maxNodes, n, h'[..len']);
    } else {
      kept' := KeepBetter(st, live, done, skipped, kept, hs, maxNodes, n, h'[..len']);
    }
  }
}
