/** The flame-graph tree object: insertion of stacks, merging, and reading the stacks back. */
module FlameTree {
  import opened Collections
  import opened Names
  import opened Sums
  import opened TreeStore
  import opened TreeInsert
  import opened TreeMerge
  import opened TreeFix
  import opened TreeRename

  lemma AppendOneMore<T>(a: seq<T>, s: seq<T>, i: nat)
    requires i <= |s|
    ensures a + s[..0] == a && a + s[..|s|] == a + s
    ensures i < |s| ==> a + s[..i] + [s[i]] == a + s[..i + 1]
  {
    assert s[..|s|] == s;
  }

  lemma SameLists<T>(a: seq<T>, x: T, b: seq<T>, y: T)
    requires |a| == |b|
    ensures a + [x] == b + [y] <==> a == b && x == y
  {
    assert (a + [x])[..|a|] == a && (a + [x])[|a|] == x && (b + [y])[..|b|] == b && (b + [y])[|b|] == y;
  }

  // x is the child of n with that name.
  ghost predicate Named(st: Store, n: nat, x: nat, name: Name) {
    n < |st| && x < |st| && x in st[n].children && st[x].name == name
  }

  lemma FindsNamed(st: Store, n: nat, i: nat, name: Name, x: nat)
    requires Named(st, n, x, name) && SortedNames(st, st[n].children) && i <= |st[n].children|
    requires (i < |st[n].children| && st[st[n].children[i]].name == name) || Place(st, n, i, name)
    ensures i < |st[n].children| && st[n].children[i] == x
  {
    var ch := st[n].children;
    var k :| 0 <= k < |ch| && ch[k] == x;
    LessIrreflexive(name);
    assert i < |ch| && st[ch[i]].name == name;
    assert i == k;
  }

  lemma TwiceStep(ss: Store, sl: set<nat>, st: Store, done: set<nat>, n: nat)
    requires Twice(ss, sl, st, done) && n in sl && n < |ss| && n !in done
    ensures Twice(ss, sl, AddTo(st, n, ss[n].self, ss[n].total), done + {n})
  {
  }

  // Every node done has twice what it had; nothing else has changed.
  ghost predicate Twice(ss: Store, sl: set<nat>, st: Store, done: set<nat>) {
    |st| == |ss| && forall id :: id in sl && id < |ss| ==>
      st[id] == if id in done then ss[id].(self := 2 * ss[id].self, total := 2 * ss[id].total) else ss[id]
  }

  class Tree {
    var nodes: Store
    ghost var live: set<nat>

    ghost predicate Valid()
      reads this
    {
      Linked(nodes, live) && Sorted(nodes, live) && Law(nodes, live) && RootClean(nodes)
    }

    /** The weight of a name path in this tree. */
    ghost function PathWeight(p: Path): int
      requires Valid()
      reads this
    {
      Weight(nodes, live, p)
    }

    constructor ()
      ensures Valid() && forall p :: PathWeight(p) == 0
    {
      nodes := [Node(0, [], 0, 0, [], 0)];
      live := {0};
      new;
      forall p ensures PathWeight(p) == 0 { SumZero(Terms(nodes, live, p), 1); }
    }

    /** The child of n with the given name, created in its place if there is none. */
    method Insert(n: nat, name: Name) returns (c: nat)
      requires Linked(nodes, live) && Sorted(nodes, live) && n in live
      modifies this
      ensures Grown(old(nodes), old(live), nodes, live) && Sorted(nodes, live)
      ensures c in live && c != 0 && nodes[c].parent == n
      ensures PathOf(nodes, live, c) == old(PathOf(nodes, live, n)) + [name]
      ensures forall x :: old(Named(nodes, n, x, name)) ==> c == x && nodes == old(nodes) && live == old(live)
    {
      var i := FindPlace(nodes, n, name);
      var ch := nodes[n].children;
      forall x | Named(nodes, n, x, name) ensures i < |ch| && ch[i] == x { FindsNamed(nodes, n, i, name, x); }
      if i < |ch| && nodes[ch[i]].name == name {
        c := ch[i];
        assert DownLink(nodes, live, n, c);
        GrownRefl(nodes, live);
      } else {
        InsertGrows(nodes, live, n, i, name);
        c := |nodes|;
        nodes := InsertAt(nodes, n, i, name);
        live := live + {c};
      }
    }

    // One turn of the walk: count v in n's total, then go to its child of the given name.
    method Enter(n: nat, v: int, name: Name, ghost st0: Store, ghost live0: set<nat>, ghost walked: Path)
      returns (c: nat)
      requires Linked(st0, live0) && Descending(st0, live0, nodes, live, n, v, walked) && v > 0
      modifies this
      ensures Descending(st0, live0, nodes, live, c, v, walked + [name])
    {
      ghost var st := nodes;
      nodes := nodes[n := nodes[n].(total := nodes[n].total + v)];
      PayStep(st0, live0, st, live, n, v, walked, nodes);
      ghost var paid, lv := nodes, live;
      c := Insert(n, name);
      DescendStep(st0, live0, paid, lv, n, v, walked, nodes, live, c, name);
    }

    // The end of the walk: count v at the leaf and let go of the virtual root.
    method Leave(n: nat, v: int, ghost st0: Store, ghost live0: set<nat>, ghost stack: Path)
      requires Linked(st0, live0) && Descending(st0, live0, nodes, live, n, v, stack) && v > 0
      modifies this
      ensures Arrived(st0, live0, nodes, live, v, stack)
    {
      Arrive(st0, live0, nodes, live, n, v, stack);
      CountLeaf(n, v);
    }

    method CountLeaf(n: nat, v: int)
      requires n < |nodes|
      modifies this`nodes
      ensures nodes == Settled(old(nodes), n, v)
    {
      nodes := nodes[n := nodes[n].(total := nodes[n].total + v, self := nodes[n].self + v)];
      nodes := nodes[0 := nodes[0].(self := 0, total := 0)];
    }

    /** A positive weight is added at exactly the given stack; the sibling order, the total law and
        the other weights stay. The empty stack and weights below one change nothing. */
    method InsertStack(v: int, stack: Path)
      requires Valid()
      modifies this
      ensures Valid()
      ensures forall p :: PathWeight(p) == old(PathWeight(p)) + (if v > 0 && stack != [] && p == stack then v else 0)
      ensures old(NonNegative(nodes, live)) ==> NonNegative(nodes, live)
    {
      if v <= 0 {
        return;
      }
      ghost var st0, live0 := nodes, live;
      var n: nat := 0;
      var s := 0;
      StartDescent(nodes, live, v);
      assert stack[..0] == [];
      while s < |stack|
        invariant s <= |stack| && Descending(st0, live0, nodes, live, n, v, stack[..s])
      {
        n := Enter(n, v, stack[s], st0, live0, stack[..s]);
        TakeNext(stack, s);
        s := s + 1;
      }
      assert stack[..s] == stack;
      Leave(n, v, st0, live0, stack);
    }

    /** The summed total of the roots. */
    method Total() returns (v: int)
      requires Linked(nodes, live)
      ensures v == KidTotals(nodes, live, 0)
    {
      var root := nodes[0].children;
      forall k | 0 <= k < |root| ensures DownLink(nodes, live, 0, root[k]) {}
      v := 0;
      for i := 0 to |root|
        invariant v + SumTotals(nodes, root[i..]) == SumTotals(nodes, root)
      {
        v := v + nodes[root[i]].total;
      }
    }

    /** Merging non-negative trees adds their weights path by path; a tree merged into itself has twice
        the weights. */
    method Merge(src: Tree)
      requires Valid() && src.Valid()
      modifies this
      ensures Valid()
      ensures old(NonNegative(nodes, live)) && old(NonNegative(src.nodes, src.live)) ==>
                NonNegative(nodes, live) && forall p :: PathWeight(p) == old(PathWeight(p)) + old(src.PathWeight(p))
    {
      var mine := Total();
      var theirs := src.Total();
      if mine == 0 && theirs > 0 {
        if NonNegative(nodes, live) { ZeroWeights(nodes, live); }
        nodes, live := src.nodes, src.live;
        return;
      }
      if theirs == 0 {
        if NonNegative(src.nodes, src.live) { ZeroWeights(src.nodes, src.live); }
        return;
      }
      MergeNodes(src);
    }

    // What is still to be read of the source is as it was, even if the source is this tree.
    ghost predicate Unread(src: Tree, ss: Store, sl: set<nat>, done: set<nat>, srcs: seq<nat>, dsts: seq<nat>)
      reads this, src
    {
      if src == this then live == sl && srcs == dsts && Twice(ss, sl, nodes, done) else src.nodes == ss
    }

    // The two worklists, in step.
    method MergeNodes(src: Tree)
      requires Valid() && src.Valid()
      modifies this
      ensures Valid()
      ensures forall p :: PathWeight(p) == old(PathWeight(p)) + old(src.PathWeight(p))
      ensures old(NonNegative(nodes, live)) && old(NonNegative(src.nodes, src.live)) ==> NonNegative(nodes, live)
    {
      ghost var st0, live0, ss, sl := nodes, live, src.nodes, src.live;
      var srcNodes, dstNodes := [0], [0];
      ghost var done: set<nat> := {};
      StartMerge(ss, sl, nodes, live);
      while |srcNodes| > 0
        invariant |srcNodes| == |dstNodes| && done <= sl
        invariant Merging(st0, live0, ss, sl, nodes, live, done, srcNodes, dstNodes, 0, 0)
        invariant SourceLeft(ss, sl, done, srcNodes) && Unread(src, ss, sl, done, srcNodes, dstNodes)
        decreases sl - done
      {
        var last := |srcNodes| - 1;
        var n, srcs := srcNodes[last], srcNodes[..last];
        var d, dsts := dstNodes[last], dstNodes[..last];
        SplitLast(srcNodes);
        SplitLast(dstNodes);
        TakeSource(ss, sl, done, srcs, n);
        srcNodes, dstNodes := MergeOne(src, ss, sl, srcs, dsts, n, d, st0, live0, done);
        done := done + {n};
      }
      SourceFinished(ss, sl, done);
      EndMerge(st0, live0, ss, sl, nodes, live, done);
    }

    // Adds one source node to its counterpart and queues its children beside theirs.
    method MergeOne(src: Tree, ghost ss: Store, ghost sl: set<nat>, srcs: seq<nat>, dsts: seq<nat>, n: nat, d: nat,
                    ghost st0: Store, ghost live0: set<nat>, ghost done: set<nat>)
      returns (srcs': seq<nat>, dsts': seq<nat>)
      requires Linked(st0, live0) && Linked(ss, sl) && Law(ss, sl) && RootClean(ss)
      requires |srcs| == |dsts| && n !in done && n in sl
      requires Merging(st0, live0, ss, sl, nodes, live, done, srcs + [n], dsts + [d], 0, 0)
      requires Unread(src, ss, sl, done, srcs + [n], dsts + [d])
      modifies this
      ensures srcs' == srcs + ss[n].children && |dsts'| == |srcs'|
      ensures Merging(st0, live0, ss, sl, nodes, live, done + {n}, srcs', dsts', 0, 0)
      ensures Unread(src, ss, sl, done + {n}, srcs', dsts')
    {
      AddOne(src, ss, sl, srcs, dsts, n, d, st0, live0, done);
      srcs', dsts' := QueueChildren(src, ss, sl, srcs, dsts, n, d, st0, live0, done + {n});
      SettleNode(st0, live0, ss, sl, nodes, live, done + {n}, srcs', dsts', d);
    }

    method AddOne(src: Tree, ghost ss: Store, ghost sl: set<nat>, ghost srcs: seq<nat>, ghost dsts: seq<nat>,
                  n: nat, d: nat, ghost st0: Store, ghost live0: set<nat>, ghost done: set<nat>)
      requires Linked(st0, live0) && Linked(ss, sl) && Law(ss, sl) && RootClean(ss)
      requires |srcs| == |dsts| && n !in done && n in sl
      requires Merging(st0, live0, ss, sl, nodes, live, done, srcs + [n], dsts + [d], 0, 0)
      requires Unread(src, ss, sl, done, srcs + [n], dsts + [d])
      modifies this
      ensures Merging(st0, live0, ss, sl, nodes, live, done + {n}, srcs, dsts, d, KidTotals(ss, sl, n))
      ensures SamePath(ss, sl, nodes, live, n, d) && Unread(src, ss, sl, done + {n}, srcs, dsts) &&
              (src == this ==> d == n)
    {
      LastMatched(ss, sl, nodes, live, srcs, dsts, n, d);
      SameLists(srcs, n, dsts, d);
      ghost var st := nodes;
      assert src.nodes[n] == ss[n];
      if src == this { TwiceStep(ss, sl, nodes, done, n); }
      nodes := AddTo(nodes, d, src.nodes[n].self, src.nodes[n].total);
      AddNode(st0, live0, ss, sl, st, live, done, srcs, dsts, n, d, nodes);
    }

    method QueueChildren(src: Tree, ghost ss: Store, ghost sl: set<nat>, srcs: seq<nat>, dsts: seq<nat>, n: nat, d: nat,
                         ghost st0: Store, ghost live0: set<nat>, ghost done: set<nat>)
      returns (srcs': seq<nat>, dsts': seq<nat>)
      requires |srcs| == |dsts| && Linked(ss, sl) && n in sl
      requires Merging(st0, live0, ss, sl, nodes, live, done, srcs, dsts, d, KidTotals(ss, sl, n))
      requires SamePath(ss, sl, nodes, live, n, d) && Unread(src, ss, sl, done, srcs, dsts) && (src == this ==> d == n)
      modifies this
      ensures srcs' == srcs + ss[n].children && |dsts'| == |srcs'|
      ensures Merging(st0, live0, ss, sl, nodes, live, done, srcs', dsts', d, 0)
      ensures Unread(src, ss, sl, done, srcs', dsts')
    {
      assert Remaining(ss, sl, n, 0) == KidTotals(ss, sl, n) && Remaining(ss, sl, n, |ss[n].children|) == 0 by {
        RemainingStep(ss, sl, n);
      }
      AppendOneMore(srcs, ss[n].children, 0);
      srcs', dsts' := srcs, dsts;
      var children := src.nodes[n].children;
      assert children == ss[n].children;
      for i := 0 to |children|
        invariant srcs' == srcs + children[..i]
        invariant Queueing(src, ss, sl, srcs', dsts', n, d, i, st0, live0, done)
      {
        var c := children[i];
        var dc := QueueOne(src, ss, sl, srcs', dsts', n, d, i, c, st0, live0, done);
        AppendOneMore(srcs, children, i);
        srcs', dsts' := srcs' + [c], dsts' + [dc];
      }
      AppendOneMore(srcs, children, |children|);
    }

    // The first i children of n are queued.
    ghost predicate Queueing(src: Tree, ss: Store, sl: set<nat>, srcs: seq<nat>, dsts: seq<nat>, n: nat, d: nat, i: nat,
                             st0: Store, live0: set<nat>, done: set<nat>)
      reads this, src
    {
      && Linked(ss, sl) && n in sl && i <= |ss[n].children| && |srcs| == |dsts| && (src == this ==> d == n)
      && SamePath(ss, sl, nodes, live, n, d) && Unread(src, ss, sl, done, srcs, dsts)
      && Merging(st0, live0, ss, sl, nodes, live, done, srcs, dsts, d, Remaining(ss, sl, n, i))
    }

    method QueueOne(src: Tree, ghost ss: Store, ghost sl: set<nat>, ghost srcs: seq<nat>, ghost dsts: seq<nat>,
                    ghost n: nat, d: nat, ghost i: nat, c: nat, ghost st0: Store, ghost live0: set<nat>,
                    ghost done: set<nat>)
      returns (dc: nat)
      requires Queueing(src, ss, sl, srcs, dsts, n, d, i, st0, live0, done)
      requires i < |ss[n].children| && c == ss[n].children[i]
      modifies this
      ensures Queueing(src, ss, sl, srcs + [c], dsts + [dc], n, d, i + 1, st0, live0, done)
    {
      ghost var st, lv := nodes, live;
      assert DownLink(ss, sl, n, c);
      if src == this { assert Named(nodes, d, c, ss[c].name); }
      dc := Insert(d, src.nodes[c].name);
      QueueNext(st0, live0, ss, sl, st, lv, done, srcs, dsts, n, d, i, nodes, live, dc);
    }

    /** Restores a tree whose siblings are out of order or share names: afterwards siblings are
        strictly sorted everywhere, the totals add up, and every path has the weight it had. */
    method Fix()
      requires Linked(nodes, live) && Law(nodes, live) && RootClean(nodes)
      modifies this
      ensures Valid()
      ensures forall q :: PathWeight(q) == old(Weight(nodes, live, q))
      ensures old(NonNegative(nodes, live)) ==> NonNegative(nodes, live)
    {
      ghost var st0, live0 := nodes, live;
      var owners: seq<nat> := [0];
      ghost var done: set<nat> := {};
      assert Due(nodes, live, done, 0);
      while |owners| > 0
        invariant Fixing(st0, live0, nodes, live, done, owners)
        decreases live - done
      {
        var last := |owners| - 1;
        var o, rest := owners[last], owners[..last];
        SplitLast(owners);
        assert Due(nodes, live, done, owners[last]);
        if |nodes[o].children| > 0 {
          FixSlice(o, st0, live0, done, owners);
        }
        FixExpand(nodes, live, done, rest, o);
        owners := rest + nodes[o].children;
        done := done + {o};
      }
      forall id | id in live ensures SortedNames(nodes, nodes[id].children) { FixedAll(nodes, live, done, id); }
    }

    // Sorts the children of o by name and joins those that share one.
    method FixSlice(o: nat, ghost st0: Store, ghost live0: set<nat>, ghost done: set<nat>, ghost pending: seq<nat>)
      requires Fixing(st0, live0, nodes, live, done, pending) && o in live && o !in done && nodes[o].children != []
      modifies this
      ensures Fixing(st0, live0, nodes, live, done, pending) && live <= old(live)
      ensures o in live && SortedNames(nodes, nodes[o].children)
    {
      var kids := SortSlice(o, st0, live0, done, pending);
      var out: seq<nat>, rest: seq<nat> := [kids[0]], kids[1..];
      while |rest| > 0
        invariant Fixing(st0, live0, nodes, live, done, pending) && o in live && live <= old(live)
        invariant Slicing(nodes, o, out, rest)
        decreases |rest|
      {
        var p, c := out[|out| - 1], rest[0];
        if nodes[p].name == nodes[c].name {
          Join(o, p, c, out, rest, st0, live0, done, pending);
        } else {
          SliceNext(nodes, o, out, rest);
          out := out + [c];
        }
        rest := rest[1..];
      }
      assert out + [] == out;
    }

    method SortSlice(o: nat, ghost st0: Store, ghost live0: set<nat>, ghost done: set<nat>, ghost pending: seq<nat>)
      returns (kids: seq<nat>)
      requires Fixing(st0, live0, nodes, live, done, pending) && o in live && o !in done && nodes[o].children != []
      modifies this`nodes
      ensures Fixing(st0, live0, nodes, live, done, pending)
      ensures kids != [] && Slicing(nodes, o, [kids[0]], kids[1..])
    {
      assert forall k :: 0 <= k < |nodes[o].children| ==> DownLink(nodes, live, o, nodes[o].children[k]);
      kids := SortByName(nodes, nodes[o].children);
      ghost var st := nodes;
      nodes := nodes[o := nodes[o].(children := kids)];
      ReorderedKeeps(st0, live0, st, nodes, live, done, pending, o, kids);
      SliceStart(st, nodes, o, kids);
    }

    /** Renaming every node by fn gives each path q the summed weight of the nodes whose old path fn
        maps to q, in a tree whose siblings are sorted and distinct again. */
    method FormatNodeNames(fn: Name -> Name)
      requires Valid()
      modifies this
      ensures Valid()
      ensures forall q :: PathWeight(q) == old(MappedWeight(nodes, live, fn, q))
      ensures old(NonNegative(nodes, live)) ==> NonNegative(nodes, live)
    {
      ghost var st0 := nodes;
      var fix := RenameAll(fn);
      RenamedKeeps(st0, nodes, live, fn);
      if !fix {
        RenamedNothing(st0, nodes, live, fn);
        return;
      }
      Fix();
    }

    // Renames every node; tells whether some name changed. The virtual root is a new node without a name in
    // each call: it counts, but what becomes of it does not stay.
    method RenameAll(fn: Name -> Name) returns (fix: bool)
      requires Linked(nodes, live)
      modifies this`nodes
      ensures Renamed(old(nodes), nodes, live, fn)
      ensures !fix ==>
                && fn([]) == []
                && forall id :: id in live && id != 0 ==> fn(old(nodes)[id].name) == old(nodes)[id].name
    {
      ghost var st0 := nodes;
      var pending: seq<nat> := [0];
      ghost var done: set<nat> := {};
      fix := false;
      while |pending| > 0
        invariant done <= live && Renamed(st0, nodes, done, fn) && SourceLeft(st0, live, done, pending)
        invariant !fix ==> forall id :: id in done && id != 0 ==> fn(st0[id].name) == st0[id].name
        invariant !fix && 0 in done ==> fn([]) == []
        decreases live - done
      {
        var last := |pending| - 1;
        var n, rest := pending[last], pending[..last];
        SplitLast(pending);
        TakeSource(st0, live, done, rest, n);
        var m := if n == 0 then [] else nodes[n].name;
        if n != 0 {
          nodes := nodes[n := nodes[n].(name := fn(m))];
        }
        if m != fn(m) {
          fix := true;
        }
        pending := rest + nodes[n].children;
        done := done + {n};
      }
      SourceFinished(st0, live, done);
      assert done == live by { RootDone(st0, live, done); }
    }

    // p takes over the children, the weight and the total of its sibling c.
    method Join(o: nat, p: nat, c: nat, out: seq<nat>, rest: seq<nat>,
                ghost st0: Store, ghost live0: set<nat>, ghost done: set<nat>, ghost pending: seq<nat>)
      requires Fixing(st0, live0, nodes, live, done, pending) && o in live && o !in done
      requires Slicing(nodes, o, out, rest) && rest != [] && p == out[|out| - 1] && c == rest[0]
      requires nodes[p].name == nodes[c].name
      modifies this
      ensures Fixing(st0, live0, nodes, live, done, pending) && o in live && live <= old(live)
      ensures Slicing(nodes, o, out, rest[1..])
    {
      ghost var st := nodes;
      SiblingsHere(o, p, c, out, rest);
      Absorb(o, p, c, out, rest[1..]);
      JoinStep(st0, live0, st, nodes, live, done, pending, o, p, c, out, rest);
      live := live - {c};
    }

    method Absorb(o: nat, p: nat, c: nat, a: seq<nat>, b: seq<nat>)
      requires o < |nodes| && p < |nodes| && c < |nodes| && o != p && o != c && p != c && p in a
      requires nodes[o].children == a + [c] + b
      requires forall x :: x in nodes[c].children ==> x < |nodes| && x != o && x != p && x != c
      modifies this`nodes
      ensures Joined(old(nodes), nodes, o, p, c, a, b)
    {
      var kids := nodes[c].children;
      assert forall k :: 0 <= k < |kids| ==> kids[k] in kids;
      Reparent(kids, p);
      ghost var st1 := nodes;
      nodes := nodes[p := nodes[p].(children := nodes[p].children + kids,
                                    self := nodes[p].self + nodes[c].self, total := nodes[p].total + nodes[c].total)];
      nodes := nodes[o := nodes[o].(children := a + b)];
      JoinedInSteps(old(nodes), st1, nodes, o, p, c, a, b);
    }

    lemma SiblingsHere(o: nat, p: nat, c: nat, out: seq<nat>, rest: seq<nat>)
      requires Linked(nodes, live) && o in live && Slicing(nodes, o, out, rest) && rest != []
      requires p == out[|out| - 1] && c == rest[0]
      ensures p in out && nodes[o].children == out + [c] + rest[1..]
      ensures p < |nodes| && c < |nodes| && p != o && c != o && p != c && Distinct(nodes[c].children)
      ensures forall x :: x in nodes[c].children ==> x < |nodes| && x != o && x != p && x != c
    {
      assert rest == [c] + rest[1..];
      assert out + rest == out + [c] + rest[1..];
      Siblings(nodes, live, o, p, c, out, rest[1..]);
    }

    method Reparent(xs: seq<nat>, p: nat)
      requires forall k :: 0 <= k < |xs| ==> xs[k] < |nodes|
      modifies this`nodes
      ensures |nodes| == |old(nodes)|
      ensures forall i :: 0 <= i < |nodes| ==>
                nodes[i] == if i in xs then old(nodes)[i].(parent := p) else old(nodes)[i]
    {
      for k := 0 to |xs|
        invariant |nodes| == |old(nodes)|
        invariant forall i :: 0 <= i < |nodes| ==>
                    nodes[i] == if i in xs[..k] then old(nodes)[i].(parent := p) else old(nodes)[i]
      {
        TakeNext(xs, k);
        nodes := nodes[xs[k] := nodes[xs[k]].(parent := p)];
      }
      assert xs[..|xs|] == xs;
    }
  }

  /** sort.Slice by name: some sorted arrangement of the same nodes. */
  method SortByName(st: Store, ids: seq<nat>) returns (out: seq<nat>)
    requires forall k :: 0 <= k < |ids| ==> ids[k] < |st|
    ensures multiset(out) == multiset(ids) && Ordered(st, out)
  {
    out := [];
    for i := 0 to |ids|
      invariant multiset(out) == multiset(ids[..i]) && Ordered(st, out)
    {
      TakeNext(ids, i);
      out := InsertByName(st, out, ids[i]);
    }
    assert ids[..|ids|] == ids;
  }

  method InsertByName(st: Store, ids: seq<nat>, x: nat) returns (out: seq<nat>)
    requires Ordered(st, ids) && x < |st|
    ensures multiset(out) == multiset(ids) + multiset{x} && Ordered(st, out)
  {
    var j := 0;
    while j < |ids| && !Less(st[x].name, st[ids[j]].name)
      invariant 0 <= j <= |ids|
      invariant forall k :: 0 <= k < j ==> !Less(st[x].name, st[ids[k]].name)
    {
      j := j + 1;
    }
    OrderedInsert(st, ids, j, x);
    Inserted(ids, j, x);
    out := ids[..j] + [x] + ids[j..];
  }

  lemma OrderedInsert(st: Store, s: seq<nat>, j: nat, x: nat)
    requires Ordered(st, s) && j <= |s| && x < |st|
    requires forall k :: 0 <= k < j ==> !Less(st[x].name, st[s[k]].name)
    requires j < |s| ==> Less(st[x].name, st[s[j]].name)
    ensures Ordered(st, s[..j] + [x] + s[j..])
  {
    var r := s[..j] + [x] + s[j..];
    forall a | 0 <= a < |r| ensures r[a] == (if a < j then s[a] else if a == j then x else s[a - 1]) {}
    forall a, b | 0 <= a < b < |r| ensures !Less(st[r[b]].name, st[r[a]].name) {
      if a == j {
        var y := st[s[b - 1]].name;
        if Less(y, st[x].name) {
          LessTransitive(y, st[x].name, st[s[j]].name);
          if b - 1 == j { LessIrreflexive(y); }
        }
      }
    }
  }
}
