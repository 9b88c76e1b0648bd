/** The worklist traversals of a tree: reading its stacks back, counting its nodes, and the pruned
    search for the smallest total that still shows in a flame graph. */
module TreeWalk {
  import opened Names
  import opened Sums
  import opened TreeStore

  // --- The frontier of a traversal ---

  /** done: nodes whose children were put on the list; skipped: nodes dropped without that; pending:
      the list. Every other node hangs below one that is not done. */
  ghost predicate Frontier(st: Store, live: set<nat>, done: set<nat>, skipped: set<nat>, pending: seq<nat>)
    requires Linked(st, live)
  {
    && done <= live && skipped <= live && 0 !in done && 0 !in skipped && done !! skipped
    && Distinct(pending)
    && (forall k :: 0 <= k < |pending| ==> Waiting(st, live, done, skipped, pending[k]))
    && (forall id :: id in done || id in skipped ==> id < |st| && (st[id].parent == 0 || st[id].parent in done))
    && (forall id :: id in live && id != 0 && id !in done && id !in skipped && id !in pending ==>
          Unreached(st, done, id))
  }

  ghost predicate Waiting(st: Store, live: set<nat>, done: set<nat>, skipped: set<nat>, id: nat) {
    && id in live && id != 0 && id !in done && id !in skipped
    && id < |st| && (st[id].parent == 0 || st[id].parent in done)
  }

  ghost predicate Unreached(st: Store, done: set<nat>, id: nat) {
    id < |st| && st[id].parent != 0 && st[id].parent !in done
  }

  lemma FrontierStart(st: Store, live: set<nat>)
    requires Linked(st, live)
    ensures Frontier(st, live, {}, {}, st[0].children)
  {
    forall k | 0 <= k < |st[0].children| ensures Waiting(st, live, {}, {}, st[0].children[k]) {
      assert DownLink(st, live, 0, st[0].children[k]);
    }
    forall id | id in live && id != 0 && id !in st[0].children ensures Unreached(st, {}, id) {
      assert UpLink(st, live, id);
    }
  }

  // rest is the list without n.
  ghost predicate Without(pending: seq<nat>, n: nat, rest: seq<nat>) {
    n in pending && Distinct(rest) && forall x :: x in rest <==> x in pending && x != n
  }

  lemma Children(st: Store, live: set<nat>, n: nat, x: nat)
    requires Linked(st, live) && n in live && x in live && x != 0
    ensures x in st[n].children <==> st[x].parent == n
  {
    assert UpLink(st, live, x);
    if x in st[n].children {
      var k :| 0 <= k < |st[n].children| && st[n].children[k] == x;
      assert DownLink(st, live, n, st[n].children[k]);
    }
  }

  lemma Expand(st: Store, live: set<nat>, done: set<nat>, skipped: set<nat>, pending: seq<nat>, n: nat, rest: seq<nat>)
    requires Linked(st, live) && Frontier(st, live, done, skipped, pending) && Without(pending, n, rest)
    ensures n in live && n !in done && n !in skipped && n != 0
    ensures Frontier(st, live, done + {n}, skipped, rest + st[n].children)
  {
    var ch := st[n].children;
    var done' := done + {n};
    var list := rest + ch;
    assert Waiting(st, live, done, skipped, n);
    forall k | 0 <= k < |ch| ensures Waiting(st, live, done', skipped, ch[k]) && ch[k] !in rest {
      assert DownLink(st, live, n, ch[k]);
    }
    forall k | 0 <= k < |list| ensures Waiting(st, live, done', skipped, list[k]) {
      if k < |rest| { assert rest[k] in pending; assert Waiting(st, live, done, skipped, rest[k]); }
      else { assert list[k] == ch[k - |rest|]; }
    }
    forall i, j | 0 <= i < j < |list| ensures list[i] != list[j] {
      if i < |rest| <= j { assert list[i] in rest && list[j] == ch[j - |rest|]; }
    }
    forall id | id in live && id != 0 && id !in done' && id !in skipped && id !in list
      ensures Unreached(st, done', id)
    {
      Children(st, live, n, id);
      assert forall x :: x in ch ==> x in list;
    }
  }

  lemma Skip(st: Store, live: set<nat>, done: set<nat>, skipped: set<nat>, pending: seq<nat>, n: nat, rest: seq<nat>)
    requires Linked(st, live) && Frontier(st, live, done, skipped, pending) && Without(pending, n, rest)
    ensures n in live && n !in done && n !in skipped && n != 0
    ensures Frontier(st, live, done, skipped + {n}, rest)
  {
    assert Waiting(st, live, done, skipped, n);
    forall k | 0 <= k < |rest| ensures Waiting(st, live, done, skipped + {n}, rest[k]) {
      assert rest[k] in pending;
      assert Waiting(st, live, done, skipped, rest[k]);
    }
  }

  // With nothing pending and nothing skipped, everything was visited.
  lemma {:induction false} VisitedAll(st: Store, live: set<nat>, done: set<nat>, id: nat)
    requires Linked(st, live) && Frontier(st, live, done, {}, []) && id in live && id != 0
    ensures id in done
    decreases st[id].depth
  {
    assert UpLink(st, live, id);
    if id !in done {
      assert Unreached(st, done, id);
      VisitedAll(st, live, done, st[id].parent);
    }
  }

  lemma PopFirst(pending: seq<nat>)
    requires Distinct(pending) && pending != []
    ensures Without(pending, pending[0], pending[1..])
  {
    var rest := pending[1..];
    forall x ensures x in rest <==> x in pending && x != pending[0] {
      if x in pending && x != pending[0] {
        var k :| 0 <= k < |pending| && pending[k] == x;
        assert rest[k - 1] == x;
      }
    }
  }

  lemma PopLast(pending: seq<nat>)
    requires Distinct(pending) && pending != []
    ensures Without(pending, pending[|pending| - 1], pending[..|pending| - 1])
  {
    var last := |pending| - 1;
    var rest := pending[..last];
    forall x ensures x in rest <==> x in pending && x != pending[last] {
      if x in pending && x != pending[last] {
        var k :| 0 <= k < |pending| && pending[k] == x;
        assert rest[k] == x;
      }
    }
  }

  // --- size ---

  /** The number of nodes of the tree. */
  method Size(st: Store, ghost live: set<nat>) returns (count: nat)
    requires Linked(st, live)
    ensures count == |live - {0}|
  {
    var nodes := st[0].children;
    ghost var done: set<nat> := {};
    FrontierStart(st, live);
    count := 0;
    while |nodes| > 0
      invariant Frontier(st, live, done, {}, nodes) && count == |done|
      decreases live - done
    {
      var last := |nodes| - 1;
      var n, rest := nodes[last], nodes[..last];
      PopLast(nodes);
      Expand(st, live, done, {}, nodes, n, rest);
      nodes := rest + st[n].children;
      done := done + {n};
      count := count + 1;
    }
    forall id | id in live && id != 0 ensures id in done { VisitedAll(st, live, done, id); }
    assert done == live - {0};
  }

  // --- IterateStacks ---

  /** One call of the callback: the node's name, its self weight, and the names from it up. */
  datatype Entry = Entry(name: Name, self: int, stack: seq<Name>)

  function Reverse(s: seq<Name>): (r: seq<Name>)
    ensures |r| == |s|
    ensures forall k :: 0 <= k < |s| ==> r[k] == s[|s| - 1 - k]
  {
    if s == [] then [] else [s[|s| - 1]] + Reverse(s[..|s| - 1])
  }

  ghost function EntryOf(st: Store, live: set<nat>, id: nat): Entry
    requires Linked(st, live) && id in live
  {
    Entry(st[id].name, st[id].self, Reverse(PathOf(st, live, id)))
  }

  // What is reported when the nodes are visited in the given order.
  ghost function Report(st: Store, live: set<nat>, order: seq<nat>): seq<Entry>
    requires Linked(st, live) && forall k :: 0 <= k < |order| ==> order[k] in live
  {
    if order == [] then []
    else
      var id := order[|order| - 1];
      Report(st, live, order[..|order| - 1]) + (if st[id].self > 0 then [EntryOf(st, live, id)] else [])
  }

  /** Reports every node of positive self weight, each with its own path; `order` visits each node
      of the tree exactly once. */
  method IterateStacks(st: Store, ghost live: set<nat>) returns (out: seq<Entry>, ghost order: seq<nat>)
    requires Linked(st, live)
    ensures Distinct(order) && (forall id :: id in order <==> id in live && id != 0)
    ensures out == Report(st, live, order)
  {
    var nodes := st[0].children;
    ghost var done: set<nat> := {};
    FrontierStart(st, live);
    out, order := [], [];
    while |nodes| > 0
      invariant Frontier(st, live, done, {}, nodes)
      invariant Distinct(order) && forall id :: id in order <==> id in done
      invariant out == Report(st, live, order)
      decreases live - done
    {
      var n := nodes[0];
      NextVisited(st, live, done, nodes, order);
      if st[n].self > 0 {
        var stack := StackOf(st, live, n);
        out := out + [Entry(st[n].name, st[n].self, stack)];
      }
      assert (order + [n])[..|order|] == order;
      order := order + [n];
      done := done + {n};
      nodes := nodes[1..] + st[n].children;
    }
    forall id | id in live && id != 0 ensures id in done { VisitedAll(st, live, done, id); }
  }

  lemma NextVisited(st: Store, live: set<nat>, done: set<nat>, nodes: seq<nat>, order: seq<nat>)
    requires Linked(st, live) && Frontier(st, live, done, {}, nodes) && nodes != []
    requires Distinct(order) && forall id :: id in order <==> id in done
    ensures var n := nodes[0];
            && n in live && n != 0 && n !in done && Frontier(st, live, done + {n}, {}, nodes[1..] + st[n].children)
            && Distinct(order + [n]) && forall id :: id in order + [n] <==> id in done + {n}
  {
    PopFirst(nodes);
    Expand(st, live, done, {}, nodes, nodes[0], nodes[1..]);
    OneVisited(order, done, nodes[0]);
  }

  lemma OneVisited(order: seq<nat>, done: set<nat>, n: nat)
    requires Distinct(order) && (forall id :: id in order <==> id in done) && n !in done
    ensures Distinct(order + [n]) && forall id :: id in order + [n] <==> id in done + {n}
  {
    forall k | 0 <= k < |order| ensures order[k] != n { assert order[k] in order; }
  }

  lemma UpOne(p: seq<Name>, above: seq<Name>, name: Name, stack: seq<Name>)
    requires p == above + [name]
    ensures stack + Reverse(p) == (stack + [name]) + Reverse(above)
  {
    assert p[..|p| - 1] == above;
  }

  // Follows the parent links up to the virtual root.
  method StackOf(st: Store, ghost live: set<nat>, n: nat) returns (stack: seq<Name>)
    requires Linked(st, live) && n in live
    ensures stack == Reverse(PathOf(st, live, n))
  {
    stack := [];
    var current := n;
    assert [] + Reverse(PathOf(st, live, n)) == Reverse(PathOf(st, live, n));
    while current != 0
      invariant current in live && stack + Reverse(PathOf(st, live, current)) == Reverse(PathOf(st, live, n))
      decreases st[current].depth
    {
      assert UpLink(st, live, current);
      var above := st[current].parent;
      UpOne(PathOf(st, live, current), PathOf(st, live, above), st[current].name, stack);
      stack := stack + [st[current].name];
      current := above;
    }
  }

  // Every reported entry belongs to a visited node of positive self weight, and every such node is reported.
  lemma {:induction false} ReportedNode(st: Store, live: set<nat>, order: seq<nat>, i: nat) returns (k: nat)
    requires Linked(st, live) && forall k :: 0 <= k < |order| ==> order[k] in live
    requires i < |Report(st, live, order)|
    ensures k < |order| && st[order[k]].self > 0 && EntryOf(st, live, order[k]) == Report(st, live, order)[i]
    decreases |order|
  {
    var last := |order| - 1;
    if i < |Report(st, live, order[..last])| {
      k := ReportedNode(st, live, order[..last], i);
    } else {
      k := last;
    }
  }

  lemma {:induction false} NodeReported(st: Store, live: set<nat>, order: seq<nat>, k: nat) returns (i: nat)
    requires Linked(st, live) && forall k :: 0 <= k < |order| ==> order[k] in live
    requires k < |order| && st[order[k]].self > 0
    ensures i < |Report(st, live, order)| && Report(st, live, order)[i] == EntryOf(st, live, order[k])
    decreases |order|
  {
    var last := |order| - 1;
    if k < last {
      i := NodeReported(st, live, order[..last], k);
    } else {
      i := |Report(st, live, order[..last])|;
    }
  }

  lemma {:induction false} ReportDistinct(st: Store, live: set<nat>, order: seq<nat>, i: nat, j: nat)
    requires Linked(st, live) && Sorted(st, live) && Distinct(order)
    requires forall k :: 0 <= k < |order| ==> order[k] in live
    requires i < j < |Report(st, live, order)|
    ensures Report(st, live, order)[i].stack != Report(st, live, order)[j].stack
    decreases |order|
  {
    var last := |order| - 1;
    var front := Report(st, live, order[..last]);
    if j < |front| {
      ReportDistinct(st, live, order[..last], i, j);
    } else {
      var k := ReportedNode(st, live, order[..last], i);
      if front[i].stack == EntryOf(st, live, order[last]).stack {
        ReverseInjective(PathOf(st, live, order[k]), PathOf(st, live, order[last]));
        PathInjective(st, live, order[k], order[last]);
      }
    }
  }

  lemma ReverseInjective(a: seq<Name>, b: seq<Name>)
    requires Reverse(a) == Reverse(b)
    ensures a == b
  {
    forall k | 0 <= k < |a| ensures a[k] == b[k] {
      assert Reverse(a)[|a| - 1 - k] == a[k];
      assert Reverse(b)[|b| - 1 - k] == b[k];
    }
  }

  /** In a tree with sorted siblings the report says, for every path of positive weight, exactly that
      weight and exactly once, and nothing else. */
  lemma StacksExactlyOnce(st: Store, live: set<nat>, order: seq<nat>, out: seq<Entry>)
    requires Linked(st, live) && Sorted(st, live) && Distinct(order)
    requires forall id :: id in order <==> id in live && id != 0
    requires out == Report(st, live, order)
    ensures forall i, j :: 0 <= i < j < |out| ==> out[i].stack != out[j].stack
    ensures forall i :: 0 <= i < |out| ==> out[i].self == Weight(st, live, Reverse(out[i].stack)) > 0
    ensures forall p :: Weight(st, live, p) > 0 ==> exists i :: 0 <= i < |out| && out[i].stack == Reverse(p)
  {
    forall i, j | 0 <= i < j < |out| ensures out[i].stack != out[j].stack { ReportDistinct(st, live, order, i, j); }
    forall i | 0 <= i < |out| ensures out[i].self == Weight(st, live, Reverse(out[i].stack)) > 0 {
      var k := ReportedNode(st, live, order, i);
      assert order[k] in order;
      ReverseTwice(PathOf(st, live, order[k]));
      WeightIsSelf(st, live, order[k]);
    }
    forall p | Weight(st, live, p) > 0 ensures exists i :: 0 <= i < |out| && out[i].stack == Reverse(p) {
      var n := WeightedNode(st, live, p);
      assert n in order;
      var k :| 0 <= k < |order| && order[k] == n;
      WeightIsSelf(st, live, n);
      var i := NodeReported(st, live, order, k);
    }
  }

  lemma ReverseTwice(s: seq<Name>)
    ensures Reverse(Reverse(s)) == s
  {
  }

  // A path with weight leads to some node.
  lemma WeightedNode(st: Store, live: set<nat>, p: Path) returns (n: nat)
    requires Linked(st, live) && Weight(st, live, p) > 0
    ensures n in live && n != 0 && PathOf(st, live, n) == p
  {
    var f := Terms(st, live, p);
    if forall i: nat :: i < |st| ==> f(i) == 0 { SumZero(f, |st|); }
    n :| n < |st| && f(n) != 0;
  }
}
