/** Normalization: canonical ordering of combining marks and in-place composition, for any combining-class
    function, decomposition and composition table. */
module Normalize {
  import opened MiniUtf

  type Cp = bv32
  type Ccc = Cp -> nat
  type Compose = (Cp, Cp) -> Cp

  // --- Canonical order ---

  // The code points of class 0 (the starters) and of class c, in their order.
  function Keep(ccc: Ccc, s: seq<Cp>, c: nat): seq<Cp> {
    if s == [] then []
    else (if ccc(s[0]) == 0 || ccc(s[0]) == c then [s[0]] else []) + Keep(ccc, s[1..], c)
  }

  // Positions i to j lie in one run of non-starters.
  ghost predicate OneRun(ccc: Ccc, s: seq<Cp>, i: nat, j: nat) {
    i <= j < |s| && forall k :: i <= k <= j ==> ccc(s[k]) != 0
  }

  ghost predicate RunsSorted(ccc: Ccc, s: seq<Cp>) {
    forall i: nat, j: nat :: OneRun(ccc, s, i, j) ==> ccc(s[i]) <= ccc(s[j])
  }

  /** r is s in canonical order: every run of non-starters sorted by class, and for each class nothing
      but that order lost: starters and marks of that class come exactly as in s. */
  ghost predicate CanonicalOrder(ccc: Ccc, s: seq<Cp>, r: seq<Cp>) {
    |r| == |s| && RunsSorted(ccc, r) && forall c :: Keep(ccc, r, c) == Keep(ccc, s, c)
  }

  lemma {:induction false} KeepConcat(ccc: Ccc, a: seq<Cp>, b: seq<Cp>, c: nat)
    ensures Keep(ccc, a + b, c) == Keep(ccc, a, c) + Keep(ccc, b, c)
  {
    if a == [] {
      assert a + b == b;
    } else {
      KeepConcat(ccc, a[1..], b, c);
      assert a + b == [a[0]] + (a[1..] + b) && a == [a[0]] + a[1..];
      KeepCons(ccc, a[0], a[1..] + b, c);
      KeepCons(ccc, a[0], a[1..], c);
    }
  }

  // The first code point kept for class c, when it is a mark, comes before every starter.
  lemma {:induction false} FirstKept(ccc: Ccc, s: seq<Cp>, c: nat) returns (j: nat)
    requires Keep(ccc, s, c) != [] && ccc(Keep(ccc, s, c)[0]) != 0
    ensures OneRunUpTo(ccc, s, j) && ccc(s[j]) == c && s[j] == Keep(ccc, s, c)[0]
  {
    if ccc(s[0]) == c {
      j := 0;
    } else {
      assert ccc(s[0]) != 0;
      j := FirstKept(ccc, s[1..], c);
      assert forall k :: 1 <= k <= j + 1 ==> s[k] == s[1..][k - 1];
      j := j + 1;
    }
  }

  ghost predicate OneRunUpTo(ccc: Ccc, s: seq<Cp>, j: nat) {
    OneRun(ccc, s, 0, j)
  }

  lemma TailSorted(ccc: Ccc, s: seq<Cp>)
    requires RunsSorted(ccc, s) && s != []
    ensures RunsSorted(ccc, s[1..])
  {
    forall i: nat, j: nat | OneRun(ccc, s[1..], i, j) ensures ccc(s[1..][i]) <= ccc(s[1..][j]) {
      forall k | i + 1 <= k <= j + 1 ensures ccc(s[k]) != 0 { assert s[k] == s[1..][k - 1]; }
      assert OneRun(ccc, s, i + 1, j + 1);
    }
  }

  // Two sequences in order with the same code points of each class start alike: a starter in one is one in the other.
  lemma SameFirst(ccc: Ccc, r: seq<Cp>, t: seq<Cp>)
    requires r != [] && t != [] && RunsSorted(ccc, r) && RunsSorted(ccc, t)
    requires forall c :: Keep(ccc, r, c) == Keep(ccc, t, c)
    ensures r[0] == t[0]
  {
    var c, d := ccc(r[0]), ccc(t[0]);
    assert Keep(ccc, r, c) == Keep(ccc, t, c) && Keep(ccc, r, d) == Keep(ccc, t, d);
    assert Keep(ccc, r, c)[0] == r[0] && Keep(ccc, t, d)[0] == t[0];
    if c != 0 && d != 0 {
      var j := FirstKept(ccc, t, c);
      assert OneRun(ccc, t, 0, j);
      var k := FirstKept(ccc, r, d);
      assert OneRun(ccc, r, 0, k);
    }
  }

  /** There is only one canonical order. */
  lemma {:induction false} OrderUnique(ccc: Ccc, r: seq<Cp>, t: seq<Cp>)
    requires |r| == |t| && RunsSorted(ccc, r) && RunsSorted(ccc, t)
    requires forall c :: Keep(ccc, r, c) == Keep(ccc, t, c)
    ensures r == t
  {
    if r != [] {
      SameFirst(ccc, r, t);
      TailSorted(ccc, r);
      TailSorted(ccc, t);
      forall c ensures Keep(ccc, r[1..], c) == Keep(ccc, t[1..], c) {
        assert Keep(ccc, r, c) == Keep(ccc, t, c);
        SameTail(ccc, r, t, c);
      }
      OrderUnique(ccc, r[1..], t[1..]);
      assert r == [r[0]] + r[1..] && t == [t[0]] + t[1..];
    }
  }

  lemma SameTail(ccc: Ccc, r: seq<Cp>, t: seq<Cp>, c: nat)
    requires r != [] && t != [] && r[0] == t[0] && Keep(ccc, r, c) == Keep(ccc, t, c)
    ensures Keep(ccc, r[1..], c) == Keep(ccc, t[1..], c)
  {
    var h := if ccc(r[0]) == 0 || ccc(r[0]) == c then [r[0]] else [];
    assert Keep(ccc, r, c) == h + Keep(ccc, r[1..], c) && Keep(ccc, t, c) == h + Keep(ccc, t[1..], c);
    assert Keep(ccc, r[1..], c) == Keep(ccc, r, c)[|h|..];
    assert Keep(ccc, t[1..], c) == Keep(ccc, t, c)[|h|..];
  }

  /** Ordering what is in order changes nothing; so ordering twice is ordering once. */
  lemma OrderIdempotent(ccc: Ccc, s: seq<Cp>, r: seq<Cp>, t: seq<Cp>)
    requires CanonicalOrder(ccc, s, r) && CanonicalOrder(ccc, r, t)
    ensures t == r
  {
    OrderUnique(ccc, t, r);
  }

  // --- Stable sorting by class, as std::stable_sort promises it ---

  ghost predicate Marks(ccc: Ccc, s: seq<Cp>) {
    forall k :: 0 <= k < |s| ==> ccc(s[k]) != 0
  }

  ghost predicate ByClass(ccc: Ccc, s: seq<Cp>) {
    forall i, j :: 0 <= i < j < |s| ==> ccc(s[i]) <= ccc(s[j])
  }

  function Insert(ccc: Ccc, x: Cp, s: seq<Cp>): (r: seq<Cp>)
    ensures |r| == |s| + 1
  {
    if s == [] || ccc(x) <= ccc(s[0]) then [x] + s else [s[0]] + Insert(ccc, x, s[1..])
  }

  function StableSort(ccc: Ccc, s: seq<Cp>): (r: seq<Cp>)
    ensures |r| == |s|
  {
    if s == [] then [] else Insert(ccc, s[0], StableSort(ccc, s[1..]))
  }

  lemma {:induction false} InsertMembers(ccc: Ccc, x: Cp, s: seq<Cp>)
    ensures multiset(Insert(ccc, x, s)) == multiset{x} + multiset(s)
  {
    if s != [] && ccc(s[0]) < ccc(x) {
      InsertMembers(ccc, x, s[1..]);
      assert s == [s[0]] + s[1..];
    }
  }

  lemma InsertedIn(ccc: Ccc, x: Cp, s: seq<Cp>, k: nat)
    requires k < |Insert(ccc, x, s)|
    ensures Insert(ccc, x, s)[k] == x || Insert(ccc, x, s)[k] in s
  {
    var y := Insert(ccc, x, s)[k];
    InsertMembers(ccc, x, s);
    assert y in multiset(Insert(ccc, x, s));
  }

  lemma {:induction false} InsertSorted(ccc: Ccc, x: Cp, s: seq<Cp>)
    requires ByClass(ccc, s)
    ensures ByClass(ccc, Insert(ccc, x, s))
  {
    if s != [] && ccc(s[0]) < ccc(x) {
      var rest := Insert(ccc, x, s[1..]);
      InsertSorted(ccc, x, s[1..]);
      forall k | 0 <= k < |rest| ensures ccc(s[0]) <= ccc(rest[k]) { InsertedIn(ccc, x, s[1..], k); }
    }
  }

  function Kept(ccc: Ccc, x: Cp, c: nat): seq<Cp> {
    if ccc(x) == 0 || ccc(x) == c then [x] else []
  }

  lemma KeepCons(ccc: Ccc, x: Cp, s: seq<Cp>, c: nat)
    ensures Keep(ccc, [x] + s, c) == Kept(ccc, x, c) + Keep(ccc, s, c)
  {
    assert ([x] + s)[1..] == s;
  }

  // Marks of different classes are not both kept.
  lemma OneOfTwo(ccc: Ccc, y: Cp, x: Cp, t: seq<Cp>, c: nat)
    requires 0 < ccc(y) < ccc(x)
    ensures Kept(ccc, y, c) + (Kept(ccc, x, c) + t) == Kept(ccc, x, c) + (Kept(ccc, y, c) + t)
  {
  }

  lemma {:induction false} InsertKeeps(ccc: Ccc, x: Cp, s: seq<Cp>, c: nat)
    requires Marks(ccc, s) && ccc(x) != 0
    ensures Keep(ccc, Insert(ccc, x, s), c) == Kept(ccc, x, c) + Keep(ccc, s, c)
  {
    if s != [] && ccc(s[0]) < ccc(x) {
      InsertKeeps(ccc, x, s[1..], c);
      KeepCons(ccc, s[0], Insert(ccc, x, s[1..]), c);
      OneOfTwo(ccc, s[0], x, Keep(ccc, s[1..], c), c);
    } else {
      KeepCons(ccc, x, s, c);
    }
  }

  lemma {:induction false} SortMembers(ccc: Ccc, s: seq<Cp>)
    ensures multiset(StableSort(ccc, s)) == multiset(s)
  {
    if s != [] {
      SortMembers(ccc, s[1..]);
      InsertMembers(ccc, s[0], StableSort(ccc, s[1..]));
      assert s == [s[0]] + s[1..];
    }
  }

  lemma {:induction false} SortSorts(ccc: Ccc, s: seq<Cp>)
    ensures ByClass(ccc, StableSort(ccc, s))
  {
    if s != [] {
      SortSorts(ccc, s[1..]);
      InsertSorted(ccc, s[0], StableSort(ccc, s[1..]));
    }
  }

  lemma {:induction false} SortKeeps(ccc: Ccc, s: seq<Cp>, c: nat)
    requires Marks(ccc, s)
    ensures Keep(ccc, StableSort(ccc, s), c) == Keep(ccc, s, c)
  {
    if s != [] {
      SortKeeps(ccc, s[1..], c);
      SortMembers(ccc, s[1..]);
      StillMarks(ccc, s[1..], StableSort(ccc, s[1..]));
      InsertKeeps(ccc, s[0], StableSort(ccc, s[1..]), c);
    }
  }

  lemma SortFacts(ccc: Ccc, s: seq<Cp>)
    requires Marks(ccc, s)
    ensures ByClass(ccc, StableSort(ccc, s)) && multiset(StableSort(ccc, s)) == multiset(s) &&
            Marks(ccc, StableSort(ccc, s))
    ensures forall c :: Keep(ccc, StableSort(ccc, s), c) == Keep(ccc, s, c)
  {
    SortSorts(ccc, s);
    SortMembers(ccc, s);
    StillMarks(ccc, s, StableSort(ccc, s));
    forall c ensures Keep(ccc, StableSort(ccc, s), c) == Keep(ccc, s, c) { SortKeeps(ccc, s, c); }
  }

  lemma StillMarks(ccc: Ccc, s: seq<Cp>, r: seq<Cp>)
    requires Marks(ccc, s) && multiset(r) == multiset(s)
    ensures Marks(ccc, r)
  {
    forall k | 0 <= k < |r| ensures ccc(r[k]) != 0 { assert r[k] in multiset(s); }
  }

  // --- The ordering loop ---

  // Up to n the runs are sorted, from there on nothing has changed; the starters are where they were.
  ghost predicate OrderedTo(ccc: Ccc, s: seq<Cp>, r: seq<Cp>, n: nat) {
    && n <= |s| == |r| && r[n..] == s[n..] && RunsSorted(ccc, r[..n]) && multiset(r) == multiset(s)
    && (forall c :: Keep(ccc, r, c) == Keep(ccc, s, c))
    && (forall k :: 0 <= k < |s| && ccc(s[k]) == 0 ==> r[k] == s[k])
  }

  ghost predicate BetweenRuns(ccc: Ccc, s: seq<Cp>, n: nat) {
    n == 0 || n >= |s| || ccc(s[n - 1]) == 0
  }

  lemma StarterPassed(ccc: Ccc, s: seq<Cp>, r: seq<Cp>, n: nat)
    requires OrderedTo(ccc, s, r, n) && n < |s| && ccc(r[n]) == 0
    ensures Passed(ccc, s, r, n + 1)
  {
    assert r[n] == r[n..][0] == s[n];
    assert r[n + 1..] == r[n..][1..] && s[n + 1..] == s[n..][1..];
    StarterAppended(ccc, r[..n], r[n]);
    assert r[..n + 1] == r[..n] + [r[n]];
  }

  lemma StarterAppended(ccc: Ccc, s: seq<Cp>, x: Cp)
    requires RunsSorted(ccc, s) && ccc(x) == 0
    ensures RunsSorted(ccc, s + [x])
  {
    assert (s + [x])[|s|] == x;
    forall i: nat, j: nat | OneRun(ccc, s + [x], i, j) ensures ccc((s + [x])[i]) <= ccc((s + [x])[j]) {
      assert forall k :: i <= k <= j ==> (s + [x])[k] == s[k];
      assert OneRun(ccc, s, i, j);
    }
  }

  // A sorted run after a starter, or at the beginning.
  lemma RunAppended(ccc: Ccc, s: seq<Cp>, run: seq<Cp>)
    requires RunsSorted(ccc, s) && (s == [] || ccc(s[|s| - 1]) == 0) && ByClass(ccc, run)
    ensures RunsSorted(ccc, s + run)
  {
    var t := s + run;
    assert s != [] ==> t[|s| - 1] == s[|s| - 1];
    forall i: nat, j: nat | OneRun(ccc, t, i, j) ensures ccc(t[i]) <= ccc(t[j]) {
      if j < |s| {
        assert forall k :: i <= k <= j ==> t[k] == s[k];
        assert OneRun(ccc, s, i, j);
      } else {
        assert i >= |s|;
        assert t[i] == run[i - |s|] && t[j] == run[j - |s|];
      }
    }
  }

  // A run [n, m) of marks is replaced by its stable sort.
  lemma RunReplaced(ccc: Ccc, s: seq<Cp>, r: seq<Cp>, n: nat, m: nat, r': seq<Cp>)
    requires OrderedTo(ccc, s, r, n) && BetweenRuns(ccc, s, n) && n < m <= |s| && Marks(ccc, r[n..m])
    requires r' == r[..n] + StableSort(ccc, r[n..m]) + r[m..]
    ensures OrderedTo(ccc, s, r', m)
  {
    var run := StableSort(ccc, r[n..m]);
    SortFacts(ccc, r[n..m]);
    Parts(r, n, m);
    forall c ensures Keep(ccc, r', c) == Keep(ccc, s, c) {
      KeepParts(ccc, r[..n], r[n..m], r[m..], c);
      KeepParts(ccc, r[..n], run, r[m..], c);
      assert Keep(ccc, r, c) == Keep(ccc, s, c);
    }
    assert multiset(r') == multiset(r);
    RunSortedPrefix(ccc, s, r, n, m, r', run);
    StartersKept(ccc, s, r, n, m, r', run);
    SameRest(s, r, n, m, r');
  }

  lemma SameRest(s: seq<Cp>, r: seq<Cp>, n: nat, m: nat, r': seq<Cp>)
    requires n < m <= |s| == |r| == |r'| && r[n..] == s[n..] && r'[m..] == r[m..]
    ensures r'[m..] == s[m..]
  {
    assert r[m..] == r[n..][m - n..] && s[m..] == s[n..][m - n..];
  }

  lemma RunPassed(ccc: Ccc, s: seq<Cp>, r: seq<Cp>, n: nat, m: nat, r': seq<Cp>)
    requires Passed(ccc, s, r, n) && n < m <= |s|
    requires Marks(ccc, r[n..m]) && (m < |s| ==> ccc(r[m]) == 0)
    requires r' == r[..n] + StableSort(ccc, r[n..m]) + r[m..]
    ensures Passed(ccc, s, r', m + 1)
  {
    RunReplaced(ccc, s, r, n, m, r');
    if m < |s| {
      assert r'[m] == r[m];
      StarterPassed(ccc, s, r', m);
    }
  }

  lemma Parts(r: seq<Cp>, n: nat, m: nat)
    requires n <= m <= |r|
    ensures r == r[..n] + r[n..m] + r[m..]
  {
  }

  lemma KeepParts(ccc: Ccc, a: seq<Cp>, b: seq<Cp>, d: seq<Cp>, c: nat)
    ensures Keep(ccc, a + b + d, c) == Keep(ccc, a, c) + Keep(ccc, b, c) + Keep(ccc, d, c)
  {
    KeepConcat(ccc, a + b, d, c);
    KeepConcat(ccc, a, b, c);
  }

  lemma RunSortedPrefix(ccc: Ccc, s: seq<Cp>, r: seq<Cp>, n: nat, m: nat, r': seq<Cp>, run: seq<Cp>)
    requires OrderedTo(ccc, s, r, n) && BetweenRuns(ccc, s, n) && n < m <= |s|
    requires |run| == m - n && ByClass(ccc, run) && r' == r[..n] + run + r[m..]
    ensures RunsSorted(ccc, r'[..m])
  {
    assert r'[..m] == r[..n] + run;
    if n > 0 { assert r[n - 1] == s[n - 1]; }
    RunAppended(ccc, r[..n], run);
  }

  lemma StartersKept(ccc: Ccc, s: seq<Cp>, r: seq<Cp>, n: nat, m: nat, r': seq<Cp>, run: seq<Cp>)
    requires OrderedTo(ccc, s, r, n) && n < m <= |s| && Marks(ccc, r[n..m])
    requires |run| == m - n && r' == r[..n] + run + r[m..]
    ensures forall k :: 0 <= k < |s| && ccc(s[k]) == 0 ==> r'[k] == s[k]
  {
    forall k | n <= k < m ensures ccc(r[k]) != 0 { assert r[n..m][k - n] == r[k]; }
    forall k | 0 <= k < |s| && ccc(s[k]) == 0 ensures r'[k] == s[k] {
      assert r[k] == s[k];
    }
  }

  method OrderMarks(a: array<Cp>, ccc: Ccc)
    modifies a
    ensures CanonicalOrder(ccc, old(a[..]), a[..]) && multiset(a[..]) == multiset(old(a[..]))
    ensures forall k :: 0 <= k < a.Length && ccc(old(a[k])) == 0 ==> a[k] == old(a[k])
  {
    ghost var s := a[..];
    NothingPassed(ccc, s);
    var start := 0;
    while start < a.Length
      invariant 0 <= start && Passed(ccc, s, a[..], start)
    {
      if ccc(a[start]) == 0 {
        StarterPassed(ccc, s, a[..], start);
        start := start + 1;
        continue;
      }
      start := OrderRun(a, start, ccc, s);
    }
    AllPassed(ccc, s, a[..], start);
  }

  // One run, and the position past the code point that ends it.
  method OrderRun(a: array<Cp>, start: nat, ccc: Ccc, ghost s: seq<Cp>) returns (next: nat)
    requires Passed(ccc, s, a[..], start) && start < a.Length && ccc(a[start]) != 0
    modifies a
    ensures next > start && Passed(ccc, s, a[..], next)
  {
    var end := RunEnd(a, start, ccc);
    ghost var r := a[..];
    SortRun(a, start, end, ccc);
    RunPassed(ccc, s, r, start, end, a[..]);
    next := end + 1;
  }

  // The ordering has come to n, past a starter or the end.
  ghost predicate Passed(ccc: Ccc, s: seq<Cp>, r: seq<Cp>, n: nat) {
    OrderedTo(ccc, s, r, if n < |s| then n else |s|) && BetweenRuns(ccc, s, n)
  }

  lemma NothingPassed(ccc: Ccc, s: seq<Cp>)
    ensures Passed(ccc, s, s, 0)
  {
  }

  lemma AllPassed(ccc: Ccc, s: seq<Cp>, r: seq<Cp>, n: nat)
    requires Passed(ccc, s, r, n) && n >= |s|
    ensures CanonicalOrder(ccc, s, r) && multiset(r) == multiset(s)
    ensures |r| == |s| && forall k :: 0 <= k < |s| && ccc(s[k]) == 0 ==> r[k] == s[k]
  {
    assert r[..|s|] == r;
  }

  method RunEnd(a: array<Cp>, start: nat, ccc: Ccc) returns (end: nat)
    requires start < a.Length && ccc(a[start]) != 0
    ensures start < end <= a.Length && Marks(ccc, a[..][start..end]) && (end < a.Length ==> ccc(a[..][end]) == 0)
  {
    end := start + 1;
    while end < a.Length && ccc(a[end]) != 0
      invariant start < end <= a.Length && forall k :: start <= k < end ==> ccc(a[k]) != 0
    {
      end := end + 1;
    }
  }

  method SortRun(a: array<Cp>, lo: nat, hi: nat, ccc: Ccc)
    requires lo < hi <= a.Length
    modifies a
    ensures a[..] == old(a[..])[..lo] + StableSort(ccc, old(a[..])[lo..hi]) + old(a[..])[hi..]
  {
    if hi - lo > 1 {
      var sorted := StableSort(ccc, a[lo..hi]);
      assert a[lo..hi] == a[..][lo..hi];
      forall k | lo <= k < hi {
        a[k] := sorted[k - lo];
      }
      assert a[..] == old(a[..])[..lo] + sorted + old(a[..])[hi..];
    } else {
      assert StableSort(ccc, a[..][lo..hi]) == [a[lo]] by {
        assert a[..][lo..hi] == [a[lo]];
        assert StableSort(ccc, []) == [];
      }
    }
  }

  // --- Composition ---

  /** The output so far, the position of the starter to compose with, and the class of the last code
      point written after it, -1 when there is none. */
  datatype Work = Work(out: seq<Cp>, starter: nat, last: int)

  function ComposeStep(ccc: Ccc, comp: Compose, w: Work, ch: Cp): (r: Work)
    requires w.starter < |w.out|
    ensures r.starter < |r.out| && |w.out| <= |r.out| <= |w.out| + 1
  {
    var composite := comp(w.out[w.starter], ch);
    if composite != 0 && w.last < ccc(ch) then w.(out := w.out[w.starter := composite])
    else if ccc(ch) == 0 then Work(w.out + [ch], |w.out|, -1)
    else Work(w.out + [ch], w.starter, ccc(ch))
  }

  /** Composition out of place, one code point after the other. */
  function Composed(ccc: Ccc, comp: Compose, s: seq<Cp>): (w: Work)
    requires s != []
    ensures w.starter < |w.out| <= |s|
  {
    if |s| == 1 then Work(s, 0, -1)
    else ComposeStep(ccc, comp, Composed(ccc, comp, s[..|s| - 1]), s[|s| - 1])
  }

  /** Composition in place: the write position never passes the read position, and what is written is
      what composition out of place gives. */
  method ComposeMarks(a: array<Cp>, ccc: Ccc, comp: Compose) returns (target: nat)
    requires a.Length > 0
    modifies a
    ensures 0 < target <= a.Length && a[..target] == Composed(ccc, comp, old(a[..])).out
  {
    ghost var s := a[..];
    var i: nat := 1;
    var lastClass, starterPos: nat := -1, 0;
    target := 1;
    assert a[..1] == s[..1] == [a[0]];
    while i < a.Length
      invariant 1 <= i <= a.Length && 0 < target <= i && starterPos < target
      invariant Composed(ccc, comp, s[..i]) == Work(a[..target], starterPos, lastClass) && a[i..] == s[i..]
    {
      NextComposed(ccc, comp, s, i);
      SameNext(a[..], s, i);
      target, starterPos, lastClass := ComposeOne(a, ccc, comp, i, target, starterPos, lastClass);
      i := i + 1;
    }
    assert s[..i] == s;
  }

  lemma SameNext(a: seq<Cp>, s: seq<Cp>, i: nat)
    requires i < |s| == |a| && a[i..] == s[i..]
    ensures a[i] == s[i] && a[i + 1..] == s[i + 1..]
  {
    assert a[i] == a[i..][0] && s[i] == s[i..][0];
    assert a[i + 1..] == a[i..][1..] && s[i + 1..] == s[i..][1..];
  }

  // One turn of the loop: composes a[i] with the starter, or writes it at the target.
  method ComposeOne(a: array<Cp>, ccc: Ccc, comp: Compose, i: nat, target: nat, starterPos: nat, lastClass: int)
    returns (target': nat, starterPos': nat, lastClass': int)
    requires starterPos < target <= i < a.Length
    modifies a
    ensures starterPos' < target' && target <= target' <= target + 1
    ensures Work(a[..target'], starterPos', lastClass') ==
            ComposeStep(ccc, comp, Work(old(a[..target]), starterPos, lastClass), old(a[i]))
    ensures a[i + 1..] == old(a[i + 1..])
  {
    var starter, ch := a[starterPos], a[i];
    target', starterPos', lastClass' := target, starterPos, lastClass;
    var composite := comp(starter, ch);
    if composite != 0 && lastClass < ccc(ch) {
      a[starterPos] := composite;
      assert a[..target] == old(a[..target])[starterPos := composite];
    } else {
      a[target] := ch;
      target' := target + 1;
      assert a[..target'] == old(a[..target]) + [ch];
      if ccc(ch) == 0 {
        starterPos', lastClass' := target, -1;
      } else {
        lastClass' := ccc(ch);
      }
    }
  }

  lemma NextComposed(ccc: Ccc, comp: Compose, s: seq<Cp>, i: nat)
    requires 0 < i < |s|
    ensures Composed(ccc, comp, s[..i + 1]) == ComposeStep(ccc, comp, Composed(ccc, comp, s[..i]), s[i])
  {
    assert s[..i + 1][..i] == s[..i];
  }

  // A mark of class c at the end of the output is blocked from the starter (Unicode definition D115).
  ghost predicate Blocked(ccc: Ccc, w: Work, c: nat) {
    exists k :: w.starter < k < |w.out| && (ccc(w.out[k]) == 0 || ccc(w.out[k]) >= c)
  }

  // The last class stands for everything after the starter.
  ghost predicate Tracks(ccc: Ccc, w: Work) {
    && w.starter < |w.out|
    && (forall k :: w.starter < k < |w.out| ==> 0 < ccc(w.out[k]) <= w.last)
    && (if |w.out| == w.starter + 1 then w.last == -1 else w.last == ccc(w.out[|w.out| - 1]))
  }

  ghost predicate LastInRun(ccc: Ccc, s: seq<Cp>, i: nat, last: int) {
    last == -1 || exists j: nat :: 0 < i && OneRun(ccc, s, j, i - 1) && ccc(s[j]) == last
  }

  lemma LastBelow(ccc: Ccc, s: seq<Cp>, i: nat, last: int)
    requires RunsSorted(ccc, s) && 0 < i < |s| && LastInRun(ccc, s, i, last) && ccc(s[i]) != 0
    ensures last <= ccc(s[i]) && LastInRun(ccc, s, i + 1, last) && LastInRun(ccc, s, i + 1, ccc(s[i]))
  {
    assert OneRun(ccc, s, i, i);
    if last != -1 {
      var j: nat :| 0 < i && OneRun(ccc, s, j, i - 1) && ccc(s[j]) == last;
      assert OneRun(ccc, s, j, i);
    }
  }

  lemma {:induction false} ComposedTracks(ccc: Ccc, comp: Compose, s: seq<Cp>, i: nat)
    requires RunsSorted(ccc, s) && 0 < i <= |s|
    ensures Tracks(ccc, Composed(ccc, comp, s[..i])) && LastInRun(ccc, s, i, Composed(ccc, comp, s[..i]).last)
  {
    if i > 1 {
      var w, ch := Composed(ccc, comp, s[..i - 1]), s[i - 1];
      ComposedTracks(ccc, comp, s, i - 1);
      NextComposed(ccc, comp, s, i - 1);
      if ccc(ch) != 0 { LastBelow(ccc, s, i - 1, w.last); }
      StepTracks(ccc, comp, w, ch);
      assert LastInRun(ccc, s, i, ComposeStep(ccc, comp, w, ch).last);
    } else {
      assert s[..1] == [s[0]];
    }
  }

  lemma StepTracks(ccc: Ccc, comp: Compose, w: Work, ch: Cp)
    requires Tracks(ccc, w) && (ccc(ch) != 0 ==> w.last <= ccc(ch))
    ensures Tracks(ccc, ComposeStep(ccc, comp, w, ch))
    ensures var last := ComposeStep(ccc, comp, w, ch).last;
            last == -1 || (ccc(ch) != 0 && (last == w.last || last == ccc(ch)))
  {
  }

  /** On input in canonical order, comparing with the last class is the blocking rule. */
  lemma BlockingRule(ccc: Ccc, comp: Compose, s: seq<Cp>, i: nat)
    requires RunsSorted(ccc, s) && 0 < i < |s|
    ensures var w := Composed(ccc, comp, s[..i]); w.last < ccc(s[i]) <==> !Blocked(ccc, w, ccc(s[i]))
  {
    ComposedTracks(ccc, comp, s, i);
    var w := Composed(ccc, comp, s[..i]);
    if |w.out| > w.starter + 1 { assert 0 < ccc(w.out[|w.out| - 1]); }
  }

  /** On input in canonical order each code point is composed with the last starter exactly when the two have a
      composite and it is not blocked from that starter; otherwise it is kept, and is the new starter if its class
      is 0. */
  lemma ComposesExactly(ccc: Ccc, comp: Compose, s: seq<Cp>, i: nat)
    requires RunsSorted(ccc, s) && 0 < i < |s|
    ensures var w, next := Composed(ccc, comp, s[..i]), Composed(ccc, comp, s[..i + 1]);
            var composite := comp(w.out[w.starter], s[i]);
            if composite != 0 && !Blocked(ccc, w, ccc(s[i]))
            then next.out == w.out[w.starter := composite] && next.starter == w.starter
            else next.out == w.out + [s[i]] && next.starter == if ccc(s[i]) == 0 then |w.out| else w.starter
  {
    BlockingRule(ccc, comp, s, i);
    NextComposed(ccc, comp, s, i);
  }

  // --- The whole normalization ---

  function DecomposeAll(decompose: Cp -> seq<Cp>, u: seq<Cp>): seq<Cp> {
    if u == [] then [] else decompose(u[0]) + DecomposeAll(decompose, u[1..])
  }

  lemma {:induction false} DecomposeAppend(decompose: Cp -> seq<Cp>, u: seq<Cp>, x: Cp)
    ensures DecomposeAll(decompose, u + [x]) == DecomposeAll(decompose, u) + decompose(x)
  {
    if u == [] {
      assert u + [x] == [x];
      assert DecomposeAll(decompose, [x]) == decompose(x) + DecomposeAll(decompose, []);
    } else {
      DecomposeAppend(decompose, u[1..], x);
      assert (u + [x])[1..] == u[1..] + [x];
    }
  }

  lemma StepWellFormed(s: seq<bv8>, i: nat)
    requires i < |s|
    ensures WellFormed(UTF8, s, i) <==> Check8(s, i).Valid? && WellFormed(UTF8, s, Step(UTF8, s, i).1)
  {
  }

  method Decomposition(str: seq<bv8>, decompose: Cp -> seq<Cp>) returns (out: seq<Cp>, replaced: bool)
    ensures out == DecomposeAll(decompose, Decode(UTF8, str, 0))
    ensures !replaced <==> WellFormed(UTF8, str, 0)
  {
    out, replaced := [], false;
    ghost var u: seq<Cp> := [];
    var i: nat := 0;
    while i < |str|
      invariant 0 <= i <= |str| && Decode(UTF8, str, 0) == u + Decode(UTF8, str, i) && out == DecomposeAll(decompose, u)
      invariant WellFormed(UTF8, str, 0) <==> !replaced && WellFormed(UTF8, str, i)
      decreases |str| - i
    {
      var pt, next;
      ghost var before := replaced;
      pt, next, replaced := DecodeOne(UTF8, str, i, replaced);
      DecomposeAppend(decompose, u, pt);
      DecodeNext(UTF8, str, i, u);
      StepWellFormed(str, i);
      out := out + decompose(pt);
      u := u + [pt];
      i := next;
    }
    assert u + [] == u;
  }

  /** The decomposition of the code points in canonical order; composed too, if asked for. The flag says
      whether any byte had to be replaced. */
  method Normalize32(str: seq<bv8>, compose: bool, ccc: Ccc, decompose: Cp -> seq<Cp>, comp: Compose)
    returns (r: seq<Cp>, replaced: bool, ghost ordered: seq<Cp>)
    requires forall pt :: decompose(pt) != []
    ensures CanonicalOrder(ccc, DecomposeAll(decompose, Decode(UTF8, str, 0)), ordered)
    ensures r == if compose && str != [] then Composed(ccc, comp, ordered).out else ordered
    ensures !replaced <==> WellFormed(UTF8, str, 0)
  {
    if str == [] {
      NothingPassed(ccc, []);
      AllPassed(ccc, [], [], 0);
      return [], false, [];
    }
    var points;
    points, replaced := Decomposition(str, decompose);
    var a := new Cp[|points|](k requires 0 <= k < |points| => points[k]);
    assert a[..] == points;
    OrderMarks(a, ccc);
    ordered := a[..];
    if !compose {
      return a[..], replaced, ordered;
    }
    assert Decode(UTF8, str, 0) != [];
    var target := ComposeMarks(a, ccc, comp);
    return a[..target], replaced, ordered;
  }
}
