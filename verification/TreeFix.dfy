/** Joining two siblings of the same name into one: what it keeps. */
module TreeFix {
  import opened Collections
  import opened Names
  import opened Sums
  import opened TreeStore
  import opened TreeWalk

  /** st' is st after the sibling p, one of a, has absorbed c: its children, self weight and total;
      the parent o lists its children without c. */
  ghost predicate Joined(st: Store, st': Store, o: nat, p: nat, c: nat, a: seq<nat>, b: seq<nat>) {
    && |st'| == |st| && o < |st| && p < |st| && c < |st| && o != p && o != c && p != c
    && p in a && st[o].children == a + [c] + b
    && st'[o] == st[o].(children := a + b)
    && st'[p] == st[p].(children := st[p].children + st[c].children,
                        self := st[p].self + st[c].self, total := st[p].total + st[c].total)
    && forall i :: 0 <= i < |st| && i != o && i != p ==>
         st'[i] == if i in st[c].children then st[i].(parent := p) else st[i]
  }

  // Where p, c and the children of c stand.
  lemma Siblings(st: Store, live: set<nat>, o: nat, p: nat, c: nat, a: seq<nat>, b: seq<nat>)
    requires Linked(st, live) && o in live && st[o].children == a + [c] + b && p in a
    ensures DownLink(st, live, o, p) && DownLink(st, live, o, c)
    ensures UpLink(st, live, p) && UpLink(st, live, c) && st[p].depth == st[c].depth == st[o].depth + 1
    ensures p != o && c != o && p != c && c !in a && c !in b
    ensures forall x :: x in st[c].children ==> DownLink(st, live, c, x) && x != o && x != p && x != c
  {
    var ch := st[o].children;
    assert ch[|a|] == c;
    assert DownLink(st, live, o, ch[|a|]);
    var i :| 0 <= i < |a| && a[i] == p;
    assert ch[i] == p;
    assert DownLink(st, live, o, ch[i]);
    forall x | x in a ensures x != c {
      var k :| 0 <= k < |a| && a[k] == x;
      assert ch[k] == x;
    }
    forall x | x in b ensures x != c {
      var k :| 0 <= k < |b| && b[k] == x;
      assert ch[|a| + 1 + k] == x;
    }
    forall x | x in st[c].children ensures DownLink(st, live, c, x) && x != o && x != p && x != c {
      var k :| 0 <= k < |st[c].children| && st[c].children[k] == x;
      assert DownLink(st, live, c, st[c].children[k]);
      assert UpLink(st, live, x);
    }
  }

  lemma JoinedUpLink(st: Store, st': Store, live: set<nat>, o: nat, p: nat, c: nat, a: seq<nat>, b: seq<nat>, id: nat)
    requires Linked(st, live) && o in live && Joined(st, st', o, p, c, a, b) && id in live && id != 0 && id != c
    ensures UpLink(st', live - {c}, id)
  {
    Siblings(st, live, o, p, c, a, b);
    assert UpLink(st, live, id);
    Children(st, live, c, id);
    var q := st[id].parent;
    if q == o {
      assert id in a || id in b;
      assert id in a + b;
    }
  }

  lemma JoinedDownLink(st: Store, st': Store, live: set<nat>, o: nat, p: nat, c: nat, a: seq<nat>, b: seq<nat>, id: nat,
                       x: nat)
    requires Linked(st, live) && o in live && Joined(st, st', o, p, c, a, b) && id in live && id != c &&
             x in st'[id].children
    ensures DownLink(st', live - {c}, id, x)
  {
    Siblings(st, live, o, p, c, a, b);
    if id == p && x in st[c].children {
      assert DownLink(st, live, c, x);
    } else {
      assert x in st[id].children by { if id == o { assert x in a || x in b; } }
      var k :| 0 <= k < |st[id].children| && st[id].children[k] == x;
      assert DownLink(st, live, id, st[id].children[k]);
      assert x in st[c].children ==> DownLink(st, live, c, x);
    }
  }

  lemma DistinctWithout(a: seq<nat>, c: nat, b: seq<nat>)
    requires Distinct(a + [c] + b)
    ensures Distinct(a + b)
  {
    var ch := a + [c] + b;
    forall i, j | 0 <= i < j < |a + b| ensures (a + b)[i] != (a + b)[j] {
      assert (a + b)[i] == ch[if i < |a| then i else i + 1] && (a + b)[j] == ch[if j < |a| then j else j + 1];
    }
  }

  lemma DistinctTogether(u: seq<nat>, v: seq<nat>)
    requires Distinct(u) && Distinct(v) && forall i, j :: 0 <= i < |u| && 0 <= j < |v| ==> u[i] != v[j]
    ensures Distinct(u + v)
  {
    var w := u + v;
    forall i, j | 0 <= i < j < |w| ensures w[i] != w[j] {
      if i < |u| <= j { assert w[i] == u[i] && w[j] == v[j - |u|]; }
    }
  }

  lemma JoinedDistinct(st: Store, st': Store, live: set<nat>, o: nat, p: nat, c: nat, a: seq<nat>, b: seq<nat>)
    requires Linked(st, live) && o in live && p in live && c in live && Joined(st, st', o, p, c, a, b)
    ensures Distinct(a + b) && Distinct(st[p].children + st[c].children)
  {
    DistinctWithout(a, c, b);
    var u, v := st[p].children, st[c].children;
    forall i, j | 0 <= i < |u| && 0 <= j < |v| ensures u[i] != v[j] {
      assert DownLink(st, live, p, u[i]) && DownLink(st, live, c, v[j]);
    }
    DistinctTogether(u, v);
  }

  lemma JoinedLinked(st: Store, st': Store, live: set<nat>, o: nat, p: nat, c: nat, a: seq<nat>, b: seq<nat>)
    requires Linked(st, live) && o in live && Joined(st, st', o, p, c, a, b)
    ensures c in live && p in live && Linked(st', live - {c})
  {
    Siblings(st, live, o, p, c, a, b);
    var live' := live - {c};
    forall id | id in live' && id != 0 ensures UpLink(st', live', id) {
      JoinedUpLink(st, st', live, o, p, c, a, b, id);
    }
    forall id, k | id in live' && 0 <= k < |st'[id].children| ensures DownLink(st', live', id, st'[id].children[k]) {
      JoinedDownLink(st, st', live, o, p, c, a, b, id, st'[id].children[k]);
    }
    JoinedDistinct(st, st', live, o, p, c, a, b);
    forall id | id in live' ensures Distinct(st'[id].children) {
      if id != o && id != p { assert st'[id].children == st[id].children; }
    }
    assert st'[0].depth == st[0].depth;
  }

  lemma {:induction false} JoinedPath(st: Store, st': Store, live: set<nat>, o: nat, p: nat, c: nat, a: seq<nat>,
                                      b: seq<nat>, id: nat)
    requires Linked(st, live) && o in live && Joined(st, st', o, p, c, a, b) && Linked(st', live - {c})
    requires st[p].name == st[c].name && id in live && id != c
    ensures PathOf(st', live - {c}, id) == PathOf(st, live, id)
    decreases st[id].depth
  {
    if id != 0 {
      Siblings(st, live, o, p, c, a, b);
      assert UpLink(st, live, id);
      Children(st, live, c, id);
      if st[id].parent == c {
        JoinedPath(st, st', live, o, p, c, a, b, p);
        assert PathOf(st, live, p) == PathOf(st, live, c);
      } else {
        JoinedPath(st, st', live, o, p, c, a, b, st[id].parent);
      }
    }
  }

  lemma JoinedTerm(st: Store, st': Store, live: set<nat>, o: nat, p: nat, c: nat, a: seq<nat>, b: seq<nat>, q: Path,
                   i: nat)
    requires Linked(st, live) && o in live && Joined(st, st', o, p, c, a, b) && Linked(st', live - {c})
    requires st[p].name == st[c].name && i < |st|
    ensures TermAt(st', live - {c}, q, i) ==
            if i == c then 0
            else if i == p then TermAt(st, live, q, p) + TermAt(st, live, q, c)
            else TermAt(st, live, q, i)
  {
    Siblings(st, live, o, p, c, a, b);
    if i in live && i != c { JoinedPath(st, st', live, o, p, c, a, b, i); }
    assert PathOf(st, live, p) == PathOf(st, live, c);
  }

  /** The weight of every path is the same. */
  lemma JoinedWeight(st: Store, st': Store, live: set<nat>, o: nat, p: nat, c: nat, a: seq<nat>, b: seq<nat>, q: Path)
    requires Linked(st, live) && o in live && Joined(st, st', o, p, c, a, b) && Linked(st', live - {c})
    requires st[p].name == st[c].name
    ensures Weight(st', live - {c}, q) == Weight(st, live, q)
  {
    var f, g := Terms(st, live, q), Terms(st', live - {c}, q);
    var mid := (i: nat) => if i == c then 0 else f(i);
    SumBump(f, mid, |st|, c);
    forall i: nat | i < |st| && i != p ensures mid(i) == g(i) { JoinedTerm(st, st', live, o, p, c, a, b, q, i); }
    JoinedTerm(st, st', live, o, p, c, a, b, q, p);
    SumBump(mid, g, |st|, p);
  }

  // --- The total law ---

  lemma JoinedKidsOfP(st: Store, st': Store, live: set<nat>, o: nat, p: nat, c: nat, a: seq<nat>, b: seq<nat>)
    requires Linked(st, live) && o in live && Joined(st, st', o, p, c, a, b) && Linked(st', live - {c}) && p in live &&
             c in live
    ensures KidTotals(st', live - {c}, p) == KidTotals(st, live, p) + KidTotals(st, live, c)
  {
    Siblings(st, live, o, p, c, a, b);
    var u, v := st[p].children, st[c].children;
    forall k | 0 <= k < |u| ensures u[k] < |st| && st'[u[k]].total == st[u[k]].total {
      assert DownLink(st, live, p, u[k]);
      assert UpLink(st, live, u[k]);
    }
    forall k | 0 <= k < |v| ensures v[k] < |st| && st'[v[k]].total == st[v[k]].total {
      assert DownLink(st, live, c, v[k]);
      assert UpLink(st, live, v[k]);
    }
    SumTotalsSame(st, st', u);
    SumTotalsSame(st, st', v);
    SumTotalsConcat(st', u, v);
  }

  lemma SumWithout(st: Store, a: seq<nat>, c: nat, b: seq<nat>)
    requires forall k :: 0 <= k < |a + [c] + b| ==> (a + [c] + b)[k] < |st|
    ensures forall k :: 0 <= k < |a + b| ==> (a + b)[k] < |st|
    ensures c < |st| && SumTotals(st, a + [c] + b) == SumTotals(st, a + b) + st[c].total
  {
    var ch := a + [c] + b;
    forall k | 0 <= k < |a| ensures a[k] < |st| { assert ch[k] == a[k]; }
    forall k | 0 <= k < |b| ensures b[k] < |st| { assert ch[|a| + 1 + k] == b[k]; }
    assert ch[|a|] == c;
    SumTotalsConcat(st, a + [c], b);
    SumTotalsConcat(st, a, [c]);
    SumTotalsConcat(st, a, b);
  }

  lemma JoinedKidsOfO(st: Store, st': Store, live: set<nat>, o: nat, p: nat, c: nat, a: seq<nat>, b: seq<nat>)
    requires Linked(st, live) && o in live && Joined(st, st', o, p, c, a, b) && Linked(st', live - {c})
    ensures KidTotals(st', live - {c}, o) == KidTotals(st, live, o)
  {
    Siblings(st, live, o, p, c, a, b);
    JoinedDistinct(st, st', live, o, p, c, a, b);
    var ch, rest := st[o].children, a + b;
    forall k | 0 <= k < |ch| ensures DownLink(st, live, o, ch[k]) {}
    SumWithout(st, a, c, b);
    assert p in rest;
    forall k | 0 <= k < |rest| && rest[k] != p ensures st'[rest[k]].total == st[rest[k]].total {
      OtherSibling(st, st', live, o, p, c, a, b, k);
    }
    SumTotalsBump(st, st', rest, p);
  }

  lemma OtherSibling(st: Store, st': Store, live: set<nat>, o: nat, p: nat, c: nat, a: seq<nat>, b: seq<nat>, k: nat)
    requires Linked(st, live) && o in live && Joined(st, st', o, p, c, a, b) && k < |a + b| && (a + b)[k] != p
    ensures (a + b)[k] < |st| == |st'| && st'[(a + b)[k]].total == st[(a + b)[k]].total
  {
    var ch, x := st[o].children, (a + b)[k];
    OtherElement(ch, a, c, b, k);
    var i :| 0 <= i < |ch| && ch[i] == x;
    assert DownLink(st, live, o, ch[i]);
  }

  lemma OtherElement(s: seq<nat>, a: seq<nat>, c: nat, b: seq<nat>, k: nat)
    requires s == a + [c] + b && Distinct(s) && k < |a + b|
    ensures (a + b)[k] in s && (a + b)[k] != c
  {
    assert (a + b)[k] == s[if k < |a| then k else k + 1] && s[|a|] == c;
  }

  lemma JoinedKidsOther(st: Store, st': Store, live: set<nat>, o: nat, p: nat, c: nat, a: seq<nat>, b: seq<nat>,
                        id: nat)
    requires Linked(st, live) && o in live && Joined(st, st', o, p, c, a, b) && Linked(st', live - {c})
    requires id in live && id != o && id != p && id != c
    ensures KidTotals(st', live - {c}, id) == KidTotals(st, live, id)
  {
    Siblings(st, live, o, p, c, a, b);
    var ch := st[id].children;
    assert st'[id].children == ch;
    forall k | 0 <= k < |ch| ensures ch[k] < |st| && st'[ch[k]].total == st[ch[k]].total {
      assert DownLink(st, live, id, ch[k]);
    }
    SumTotalsSame(st, st', ch);
  }

  /** The total law is kept. */
  lemma JoinedLaw(st: Store, st': Store, live: set<nat>, o: nat, p: nat, c: nat, a: seq<nat>, b: seq<nat>)
    requires Linked(st, live) && Law(st, live) && o in live && Joined(st, st', o, p, c, a, b) && Linked(st', live - {c})
    ensures Law(st', live - {c})
  {
    Siblings(st, live, o, p, c, a, b);
    forall id | id in live - {c} && id != 0 ensures LawAt(st', live - {c}, id, 0) {
      assert LawAt(st, live, id, 0) && LawAt(st, live, c, 0);
      if id == p { JoinedKidsOfP(st, st', live, o, p, c, a, b); }
      else if id == o { JoinedKidsOfO(st, st', live, o, p, c, a, b); }
      else { JoinedKidsOther(st, st', live, o, p, c, a, b, id); }
    }
  }

  // --- Reordering the children of a node ---

  ghost predicate Reordered(st: Store, st': Store, o: nat, kids: seq<nat>) {
    o < |st| && multiset(kids) == multiset(st[o].children) && st' == st[o := st[o].(children := kids)]
  }

  lemma SameMembers(a: seq<nat>, b: seq<nat>)
    requires multiset(a) == multiset(b)
    ensures forall x :: x in a <==> x in b
    ensures Distinct(a) ==> Distinct(b)
  {
    forall x ensures x in a <==> x in b { assert x in a <==> x in multiset(a); assert x in b <==> x in multiset(b); }
    if Distinct(a) {
      forall i, j | 0 <= i < j < |b| ensures b[i] != b[j] {
        if b[i] == b[j] {
          TwiceInMultiset(b, i, j);
          OnceInMultiset(a, b[i]);
        }
      }
    }
  }

  lemma TwiceInMultiset(b: seq<nat>, i: nat, j: nat)
    requires i < j < |b| && b[i] == b[j]
    ensures multiset(b)[b[i]] >= 2
  {
    assert b == b[..j] + [b[j]] + b[j + 1..];
    assert b[i] in b[..j] by { assert b[..j][i] == b[i]; }
    assert multiset(b[..j])[b[i]] >= 1;
  }

  lemma {:induction false} OnceInMultiset(a: seq<nat>, x: nat)
    requires Distinct(a)
    ensures multiset(a)[x] <= 1
  {
    if a != [] {
      var last := |a| - 1;
      assert a == a[..last] + [a[last]];
      OnceInMultiset(a[..last], x);
      if a[last] == x { assert x !in a[..last]; }
    }
  }

  lemma TakeOut(a: seq<nat>, b: seq<nat>) returns (u: seq<nat>, v: seq<nat>)
    requires multiset(a) == multiset(b) && a != []
    ensures b == u + [a[0]] + v && multiset(a[1..]) == multiset(u + v)
  {
    assert a[0] in multiset(b);
    var i :| 0 <= i < |b| && b[i] == a[0];
    u, v := b[..i], b[i + 1..];
    assert b == u + [a[0]] + v;
    assert a == [a[0]] + a[1..];
    assert multiset(b) == multiset(u + v) + multiset{a[0]};
    Cancel(multiset(a[1..]), multiset(u + v), a[0]);
  }

  lemma {:induction false} SumPermuted(st: Store, a: seq<nat>, b: seq<nat>)
    requires multiset(a) == multiset(b) && forall k :: 0 <= k < |a| ==> a[k] < |st|
    ensures forall k :: 0 <= k < |b| ==> b[k] < |st|
    ensures SumTotals(st, a) == SumTotals(st, b)
  {
    forall k | 0 <= k < |b| ensures b[k] < |st| { assert b[k] in multiset(b); assert b[k] in a; }
    if a == [] {
      assert |multiset(b)| == 0;
    } else {
      var u, v := TakeOut(a, b);
      SumPermuted(st, a[1..], u + v);
      SumWithout(st, u, a[0], v);
    }
  }

  /** Reordering siblings keeps the links, every path and the total law. */
  lemma ReorderedLinked(st: Store, st': Store, live: set<nat>, o: nat, kids: seq<nat>)
    requires Linked(st, live) && o in live && Reordered(st, st', o, kids)
    ensures Linked(st', live)
  {
    SameMembers(st[o].children, kids);
    forall id | id in live && id != 0 ensures UpLink(st', live, id) { assert UpLink(st, live, id); }
    forall id, k | id in live && 0 <= k < |st'[id].children| ensures DownLink(st', live, id, st'[id].children[k]) {
      var x := st'[id].children[k];
      assert x in st[id].children by { if id == o { assert x in kids; } }
      var m :| 0 <= m < |st[id].children| && st[id].children[m] == x;
      assert DownLink(st, live, id, st[id].children[m]);
    }
  }

  lemma {:induction false} ReorderedPath(st: Store, st': Store, live: set<nat>, o: nat, kids: seq<nat>, id: nat)
    requires Linked(st, live) && Linked(st', live) && Reordered(st, st', o, kids) && id in live
    ensures PathOf(st', live, id) == PathOf(st, live, id)
    decreases st[id].depth
  {
    if id != 0 {
      assert UpLink(st, live, id);
      ReorderedPath(st, st', live, o, kids, st[id].parent);
    }
  }

  lemma ReorderedWeight(st: Store, st': Store, live: set<nat>, o: nat, kids: seq<nat>, q: Path)
    requires Linked(st, live) && Linked(st', live) && Reordered(st, st', o, kids)
    ensures Weight(st', live, q) == Weight(st, live, q)
  {
    forall i: nat | i < |st| ensures Terms(st, live, q)(i) == Terms(st', live, q)(i) {
      if i in live { ReorderedPath(st, st', live, o, kids, i); }
    }
    SumSame(Terms(st, live, q), Terms(st', live, q), |st|);
  }

  lemma ReorderedLaw(st: Store, st': Store, live: set<nat>, o: nat, kids: seq<nat>)
    requires Linked(st, live) && Linked(st', live) && Law(st, live) && o in live && Reordered(st, st', o, kids)
    ensures Law(st', live)
  {
    forall id | id in live && id != 0 ensures LawAt(st', live, id, 0) {
      assert LawAt(st, live, id, 0);
      var ch := st[id].children;
      forall k | 0 <= k < |ch| ensures ch[k] < |st| { assert DownLink(st, live, id, ch[k]); }
      SumTotalsSame(st, st', ch);
      if id == o { SumPermuted(st', ch, kids); }
    }
  }

  // --- The worklist of Fix ---

  /** done: nodes whose children are fixed; pending: nodes whose children wait to be fixed. */
  ghost predicate FixFrontier(st: Store, live: set<nat>, done: set<nat>, pending: seq<nat>)
    requires Linked(st, live)
  {
    && done <= live && Distinct(pending)
    && (0 in done || 0 in pending)
    && (forall k :: 0 <= k < |pending| ==> Due(st, live, done, pending[k]))
    && (forall id :: id in done && id != 0 ==> st[id].parent in done)
    && (forall id :: id in done ==> SortedNames(st, st[id].children))
    && (forall id :: id in live && id !in done && id !in pending ==> id != 0 && st[id].parent !in done)
  }

  ghost predicate Due(st: Store, live: set<nat>, done: set<nat>, id: nat) {
    id in live && id < |st| && id !in done && (id != 0 ==> st[id].parent in done)
  }

  lemma JoinedParent(st: Store, st': Store, live: set<nat>, o: nat, p: nat, c: nat, a: seq<nat>, b: seq<nat>, id: nat)
    requires Linked(st, live) && o in live && Joined(st, st', o, p, c, a, b) && id in live && id != c
    ensures st'[id].parent == if id != 0 && st[id].parent == c then p else st[id].parent
    ensures id != o && id != p ==> st'[id].children == st[id].children
    ensures st'[id].name == st[id].name
  {
    Siblings(st, live, o, p, c, a, b);
    if id != 0 { Children(st, live, c, id); }
    assert id in st[c].children ==> DownLink(st, live, c, id);
  }

  lemma JoinedFrontier(st: Store, st': Store, live: set<nat>, done: set<nat>, pending: seq<nat>,
                       o: nat, p: nat, c: nat, a: seq<nat>, b: seq<nat>)
    requires Linked(st, live) && FixFrontier(st, live, done, pending) && o in live && o !in done
    requires Joined(st, st', o, p, c, a, b) && Linked(st', live - {c})
    ensures FixFrontier(st', live - {c}, done, pending)
  {
    Siblings(st, live, o, p, c, a, b);
    assert c !in done && p !in done;
    forall k | 0 <= k < |pending| ensures Due(st', live - {c}, done, pending[k]) {
      assert Due(st, live, done, pending[k]);
      JoinedParent(st, st', live, o, p, c, a, b, pending[k]);
    }
    forall id | id in live - {c}
      ensures id in done && id != 0 ==> st'[id].parent in done
      ensures id in done ==> SortedNames(st', st'[id].children)
      ensures id !in done && id !in pending ==> id != 0 && st'[id].parent !in done
    {
      JoinedParent(st, st', live, o, p, c, a, b, id);
      if id in done { JoinedSorted(st, st', live, o, p, c, a, b, id); }
    }
  }

  lemma JoinedSorted(st: Store, st': Store, live: set<nat>, o: nat, p: nat, c: nat, a: seq<nat>, b: seq<nat>, id: nat)
    requires Linked(st, live) && o in live && Joined(st, st', o, p, c, a, b) && id in live && id != o && id != p &&
             id != c
    requires SortedNames(st, st[id].children)
    ensures SortedNames(st', st'[id].children)
  {
    Siblings(st, live, o, p, c, a, b);
    JoinedParent(st, st', live, o, p, c, a, b, id);
    forall k | 0 <= k < |st[id].children| ensures st'[st[id].children[k]].name == st[st[id].children[k]].name {
      var x := st[id].children[k];
      assert DownLink(st, live, id, x);
      JoinedParent(st, st', live, o, p, c, a, b, x);
    }
  }

  lemma ReorderedFrontier(st: Store, st': Store, live: set<nat>, done: set<nat>, pending: seq<nat>, o: nat,
                          kids: seq<nat>)
    requires Linked(st, live) && Linked(st', live) && FixFrontier(st, live, done, pending)
    requires o in live && o !in done && Reordered(st, st', o, kids)
    ensures FixFrontier(st', live, done, pending)
  {
    forall k | 0 <= k < |pending| ensures Due(st', live, done, pending[k]) { assert Due(st, live, done, pending[k]); }
    forall id | id in done ensures SortedNames(st', st'[id].children) {
      assert SortedNames(st, st[id].children);
      ReorderedSorted(st, st', o, kids, id);
    }
  }

  lemma ReorderedSorted(st: Store, st': Store, o: nat, kids: seq<nat>, id: nat)
    requires Reordered(st, st', o, kids) && id < |st| && id != o && SortedNames(st, st[id].children)
    ensures id < |st'| && SortedNames(st', st'[id].children)
  {
  }

  // A node whose children are in order is done, and its children come next.
  lemma FixExpand(st: Store, live: set<nat>, done: set<nat>, rest: seq<nat>, o: nat)
    requires Linked(st, live) && FixFrontier(st, live, done, rest + [o]) && o < |st| && SortedNames(st, st[o].children)
    ensures o in live && o !in done && FixFrontier(st, live, done + {o}, rest + st[o].children)
  {
    var pending, ch, done' := rest + [o], st[o].children, done + {o};
    var list := rest + ch;
    assert pending[|rest|] == o;
    assert Due(st, live, done, pending[|rest|]);
    forall k | 0 <= k < |rest| ensures rest[k] == pending[k] && rest[k] != o && Due(st, live, done, rest[k]) {}
    forall k | 0 <= k < |ch| ensures Due(st, live, done', ch[k]) && ch[k] !in rest {
      FixChild(st, live, done, rest, o, k);
    }
    forall k | 0 <= k < |list| ensures Due(st, live, done', list[k]) {
      if k >= |rest| { assert list[k] == ch[k - |rest|]; }
    }
    forall i, j | 0 <= i < j < |list| ensures list[i] != list[j] {
      if i < |rest| <= j { assert list[i] in rest && list[j] == ch[j - |rest|]; }
    }
    forall id | id in live && id !in done' && id !in list ensures id != 0 && st[id].parent !in done' {
      assert id !in pending;
      assert id !in ch;
      Children(st, live, o, id);
    }
  }

  lemma FixChild(st: Store, live: set<nat>, done: set<nat>, rest: seq<nat>, o: nat, k: nat)
    requires Linked(st, live) && FixFrontier(st, live, done, rest + [o]) && o in live && o !in done &&
             k < |st[o].children|
    ensures Due(st, live, done + {o}, st[o].children[k]) && st[o].children[k] !in rest
  {
    var x, pending := st[o].children[k], rest + [o];
    assert DownLink(st, live, o, x);
    assert UpLink(st, live, x);
    forall m | 0 <= m < |rest| ensures rest[m] != x {
      assert pending[m] == rest[m];
      assert Due(st, live, done, pending[m]);
    }
  }

  lemma {:induction false} FixedAll(st: Store, live: set<nat>, done: set<nat>, id: nat)
    requires Linked(st, live) && FixFrontier(st, live, done, []) && id in live
    ensures id in done
    decreases st[id].depth
  {
    if id != 0 {
      assert UpLink(st, live, id);
      FixedAll(st, live, done, st[id].parent);
    }
  }

  // --- One slice of siblings ---

  /** The state of Fix over what was st0: the weights and the law are kept, and the worklist holds. */
  ghost predicate Fixing(st0: Store, live0: set<nat>, st: Store, live: set<nat>, done: set<nat>, pending: seq<nat>) {
    && Linked(st0, live0) && Linked(st, live) && Law(st, live) && RootClean(st)
    && FixFrontier(st, live, done, pending)
    && (forall q :: Weight(st, live, q) == Weight(st0, live0, q))
    && (NonNegative(st0, live0) ==> NonNegative(st, live))
  }

  // The children of o are out, already strictly sorted and ending in p, followed by rest, sorted.
  ghost predicate Slicing(st: Store, o: nat, out: seq<nat>, rest: seq<nat>) {
    && o < |st| && st[o].children == out + rest && out != []
    && (forall k :: 0 <= k < |rest| ==> rest[k] < |st|)
    && SortedNames(st, out)
    && (forall i, j :: 0 <= i < j < |rest| ==> !Less(st[rest[j]].name, st[rest[i]].name))
    && (forall k :: 0 <= k < |rest| ==> !Less(st[rest[k]].name, st[out[|out| - 1]].name))
  }

  ghost predicate Ordered(st: Store, ids: seq<nat>) {
    && (forall k :: 0 <= k < |ids| ==> ids[k] < |st|)
    && (forall i, j :: 0 <= i < j < |ids| ==> !Less(st[ids[j]].name, st[ids[i]].name))
  }

  lemma ReorderedKeeps(st0: Store, live0: set<nat>, st: Store, st': Store, live: set<nat>, done: set<nat>,
                       pending: seq<nat>, o: nat, kids: seq<nat>)
    requires Fixing(st0, live0, st, live, done, pending) && o in live && o !in done && Reordered(st, st', o, kids)
    ensures Fixing(st0, live0, st', live, done, pending)
  {
    ReorderedLinked(st, st', live, o, kids);
    ReorderedLaw(st, st', live, o, kids);
    ReorderedFrontier(st, st', live, done, pending, o, kids);
    forall q ensures Weight(st', live, q) == Weight(st0, live0, q) { ReorderedWeight(st, st', live, o, kids, q); }
    ReorderedNonNegative(st, st', live, o, kids);
  }

  lemma ReorderedNonNegative(st: Store, st': Store, live: set<nat>, o: nat, kids: seq<nat>)
    requires Linked(st, live) && Linked(st', live) && Reordered(st, st', o, kids)
    ensures NonNegative(st, live) ==> NonNegative(st', live)
    ensures RootClean(st) ==> RootClean(st')
  {
    assert forall i :: 0 <= i < |st| ==> st'[i].self == st[i].self && st'[i].total == st[i].total;
  }

  // The three updates that join two siblings.
  lemma JoinedInSteps(st: Store, st1: Store, st': Store, o: nat, p: nat, c: nat, a: seq<nat>, b: seq<nat>)
    requires o < |st| && p < |st| && c < |st| && o != p && o != c && p != c && p in a
    requires st[o].children == a + [c] + b && forall x :: x in st[c].children ==> x < |st| && x != o && x != p && x != c
    requires |st1| == |st|
    requires forall i :: 0 <= i < |st| ==> st1[i] == if i in st[c].children then st[i].(parent := p) else st[i]
    requires st' == st1[p := st1[p].(children := st1[p].children + st[c].children,
                                     self := st1[p].self + st1[c].self, total := st1[p].total + st1[c].total)]
                       [o := st1[o].(children := a + b)]
    ensures Joined(st, st', o, p, c, a, b)
  {
  }

  lemma SliceStart(st: Store, st': Store, o: nat, kids: seq<nat>)
    requires Reordered(st, st', o, kids) && Ordered(st, kids) && st[o].children != []
    ensures kids != [] && Slicing(st', o, [kids[0]], kids[1..])
  {
    assert |multiset(kids)| == |kids| && |multiset(st[o].children)| == |st[o].children|;
    assert kids == [kids[0]] + kids[1..];
    assert forall i :: 0 <= i < |st| ==> st'[i].name == st[i].name;
  }

  lemma JoinedKeeps(st0: Store, live0: set<nat>, st: Store, st': Store, live: set<nat>, done: set<nat>,
                    pending: seq<nat>, o: nat, p: nat, c: nat, a: seq<nat>, b: seq<nat>)
    requires Fixing(st0, live0, st, live, done, pending) && o in live && o !in done
    requires Joined(st, st', o, p, c, a, b) && st[p].name == st[c].name
    ensures Fixing(st0, live0, st', live - {c}, done, pending) && c in live && c != o
  {
    Siblings(st, live, o, p, c, a, b);
    JoinedLinked(st, st', live, o, p, c, a, b);
    JoinedLaw(st, st', live, o, p, c, a, b);
    JoinedFrontier(st, st', live, done, pending, o, p, c, a, b);
    forall q ensures Weight(st', live - {c}, q) == Weight(st0, live0, q) {
      JoinedWeight(st, st', live, o, p, c, a, b, q);
    }
    JoinedNonNegative(st, st', live, o, p, c, a, b);
  }

  lemma JoinedNonNegative(st: Store, st': Store, live: set<nat>, o: nat, p: nat, c: nat, a: seq<nat>, b: seq<nat>)
    requires Linked(st, live) && o in live && Joined(st, st', o, p, c, a, b) && Linked(st', live - {c}) && c in live &&
             p in live
    ensures NonNegative(st, live) ==> NonNegative(st', live - {c})
    ensures RootClean(st) ==> RootClean(st')
  {
    Siblings(st, live, o, p, c, a, b);
    assert 0 !in st[c].children && p != 0;
    if NonNegative(st, live) {
      forall id | id in live - {c} ensures st'[id].self >= 0 && st'[id].total >= 0 {
        assert st[id].self >= 0 && st[id].total >= 0;
      }
    }
  }

  lemma SliceJoined(st: Store, st': Store, live: set<nat>, o: nat, out: seq<nat>, rest: seq<nat>)
    requires Linked(st, live) && o in live && Slicing(st, o, out, rest) && rest != []
    requires Joined(st, st', o, out[|out| - 1], rest[0], out, rest[1..])
    ensures Slicing(st', o, out, rest[1..])
  {
    var p, c := out[|out| - 1], rest[0];
    assert rest == [c] + rest[1..];
    assert forall i :: 0 <= i < |st| ==> st'[i].name == st[i].name;
  }

  lemma JoinStep(st0: Store, live0: set<nat>, st: Store, st': Store, live: set<nat>, done: set<nat>, pending: seq<nat>,
                 o: nat, p: nat, c: nat, out: seq<nat>, rest: seq<nat>)
    requires Fixing(st0, live0, st, live, done, pending) && o in live && o !in done && Slicing(st, o, out, rest) &&
             rest != []
    requires p == out[|out| - 1] && c == rest[0] && p < |st| && c < |st| && st[p].name == st[c].name
    requires Joined(st, st', o, p, c, out, rest[1..])
    ensures Fixing(st0, live0, st', live - {c}, done, pending) && o in live - {c} && Slicing(st', o, out, rest[1..])
  {
    JoinedKeeps(st0, live0, st, st', live, done, pending, o, p, c, out, rest[1..]);
    SliceJoined(st, st', live, o, out, rest);
  }

  lemma SliceNext(st: Store, o: nat, out: seq<nat>, rest: seq<nat>)
    requires Slicing(st, o, out, rest) && rest != [] && st[rest[0]].name != st[out[|out| - 1]].name
    ensures Slicing(st, o, out + [rest[0]], rest[1..])
  {
    var out', p, c := out + [rest[0]], out[|out| - 1], rest[0];
    assert rest == [c] + rest[1..];
    LessTotal(st[p].name, st[c].name);
    forall i, j | 0 <= i < j < |out'| ensures Less(st[out'[i]].name, st[out'[j]].name) {
      if j == |out| && i < |out| - 1 {
        LessTransitive(st[out[i]].name, st[p].name, st[c].name);
      }
    }
  }
}
