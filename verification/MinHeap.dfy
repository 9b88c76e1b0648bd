/** The binary min-heap of 64-bit totals, kept in place in the first n cells of a slice. */
module MinHeap {

  // Go divides toward zero, so the parent of the root is the root.
  function Parent(j: nat): nat {
    if j == 0 then 0 else (j - 1) / 2
  }

  ghost predicate IsHeap(s: seq<int>) {
    forall i {:trigger Parent(i)} :: 0 < i < |s| ==> s[Parent(i)] <= s[i]
  }

  /** The root of a heap is its minimum. */
  lemma {:induction false} RootIsMin(s: seq<int>, i: nat)
    requires IsHeap(s) && i < |s|
    ensures s[0] <= s[i]
  {
    if i > 0 { RootIsMin(s, Parent(i)); }
  }

  function Swapped(s: seq<int>, i: nat, j: nat): (r: seq<int>)
    requires i < |s| && j < |s|
    ensures |r| == |s|
    ensures multiset(r) == multiset(s)
  {
    s[i := s[j]][j := s[i]]
  }

  // Heap order everywhere but possibly between j and its parent.
  ghost predicate HeapBut(s: seq<int>, j: nat) {
    && (forall i {:trigger Parent(i)} :: 0 < i < |s| && i != j ==> s[Parent(i)] <= s[i])
    && (forall i {:trigger Parent(i)} :: 0 < i < |s| && 0 < j < |s| && Parent(i) == j ==> s[Parent(j)] <= s[i])
  }

  // Heap order everywhere but possibly between j and its children.
  ghost predicate HeapAbove(s: seq<int>, j: nat) {
    && (forall i {:trigger Parent(i)} :: 0 < i < |s| && Parent(i) != j ==> s[Parent(i)] <= s[i])
    && (forall i {:trigger Parent(i)} :: 0 < i < |s| && 0 < j < |s| && Parent(i) == j ==> s[Parent(j)] <= s[i])
  }

  method SwapIn(h: array<int>, n: nat, i: nat, j: nat)
    requires i < n && j < n <= h.Length
    modifies h
    ensures h[..n] == Swapped(old(h[..n]), i, j) && h[n..] == old(h[n..])
  {
    h[i], h[j] := h[j], h[i];
  }

  method Up(h: array<int>, n: nat, j0: nat)
    requires j0 < n <= h.Length && HeapBut(h[..n], j0)
    modifies h
    ensures IsHeap(h[..n]) && multiset(h[..n]) == multiset(old(h[..n]))
  {
    var j: nat := j0;
    while true
      invariant j < n <= h.Length && HeapBut(h[..n], j)
      invariant multiset(h[..n]) == multiset(old(h[..n]))
      decreases j
    {
      var i := Parent(j);
      if i == j || h[j] >= h[i] {
        AtPlace(h[..n], j);
        break;
      }
      SiftedUp(h[..n], j);
      SwapIn(h, n, i, j);
      j := i;
    }
  }

  lemma AtPlace(s: seq<int>, j: nat)
    requires HeapBut(s, j) && j < |s| && (Parent(j) == j || s[j] >= s[Parent(j)])
    ensures IsHeap(s)
  {
  }

  lemma SiftedUp(s: seq<int>, j: nat)
    requires HeapBut(s, j) && j < |s| && Parent(j) != j && s[j] < s[Parent(j)]
    ensures HeapBut(Swapped(s, Parent(j), j), Parent(j))
  {
  }

  method Down(h: array<int>, i0: nat, n: nat) returns (moved: bool)
    requires n <= h.Length && HeapAbove(h[..n], i0)
    modifies h
    ensures IsHeap(h[..n]) && multiset(h[..n]) == multiset(old(h[..n])) && h[n..] == old(h[n..])
  {
    var i: nat := i0;
    while true
      invariant i0 <= i && n <= h.Length && HeapAbove(h[..n], i) && h[n..] == old(h[n..])
      invariant multiset(h[..n]) == multiset(old(h[..n]))
      decreases n - i
    {
      var j1 := 2 * i + 1;
      if j1 >= n {
        NoChildren(h[..n], i);
        break;
      }
      var j := j1;
      var j2 := j1 + 1;
      if j2 < n && h[j2] < h[j1] {
        j := j2;
      }
      if h[j] >= h[i] {
        ChildrenAbove(h[..n], i, j);
        break;
      }
      SiftedDown(h[..n], i, j);
      SwapIn(h, n, i, j);
      i := j;
    }
    moved := i > i0;
  }

  lemma NoChildren(s: seq<int>, i: nat)
    requires HeapAbove(s, i) && 2 * i + 1 >= |s|
    ensures IsHeap(s)
  {
  }

  lemma ChildrenAbove(s: seq<int>, i: nat, j: nat)
    requires HeapAbove(s, i) && j < |s| && (j == 2 * i + 1 || j == 2 * i + 2) && s[j] >= s[i]
    requires 2 * i + 1 < |s| ==> s[j] <= s[2 * i + 1]
    requires 2 * i + 2 < |s| ==> s[j] <= s[2 * i + 2]
    ensures IsHeap(s)
  {
    forall k {:trigger Parent(k)} | 0 < k < |s| ensures s[Parent(k)] <= s[k] {
      if Parent(k) == i { assert k == 2 * i + 1 || k == 2 * i + 2; }
    }
  }

  // Swapping with the smaller child moves the only possible violation down to that child.
  lemma SiftedDown(s: seq<int>, i: nat, j: nat)
    requires HeapAbove(s, i) && j < |s| && (j == 2 * i + 1 || j == 2 * i + 2) && s[j] < s[i]
    requires 2 * i + 1 < |s| ==> s[j] <= s[2 * i + 1]
    requires 2 * i + 2 < |s| ==> s[j] <= s[2 * i + 2]
    ensures HeapAbove(Swapped(s, i, j), j)
  {
    var t := Swapped(s, i, j);
    assert Parent(j) == i;
    forall k {:trigger Parent(k)} | 0 < k < |s|
      ensures Parent(k) != j ==> t[Parent(k)] <= t[k]
      ensures Parent(k) == j ==> t[Parent(j)] <= t[k]
    {
      if Parent(k) == i { assert k == 2 * i + 1 || k == 2 * i + 2; }
      if k == i { assert s[Parent(i)] <= s[j]; }
    }
  }

  /** append, then sift up: the slice grows by one cell, in place when it has room for it. */
  method Push(h: array<int>, len: nat, x: int) returns (r: array<int>, n: nat)
    requires len <= h.Length && IsHeap(h[..len])
    modifies h
    ensures n == len + 1 <= r.Length && (if len < h.Length then r == h else fresh(r))
    ensures IsHeap(r[..n]) && multiset(r[..n]) == multiset(old(h[..len])) + multiset{x}
  {
    n := len + 1;
    if len < h.Length {
      r := h;
    } else {
      r := new int[2 * len + 1];
      for k := 0 to len
        invariant r[..k] == h[..k] && h[..] == old(h[..])
      {
        r[k] := h[k];
      }
    }
    r[len] := x;
    assert r[..n] == old(h[..len]) + [x];
    NewLeaf(old(h[..len]), x);
    Up(r, n, len);
  }

  lemma NewLeaf(s: seq<int>, x: int)
    requires IsHeap(s)
    ensures HeapBut(s + [x], |s|)
  {
    var t := s + [x];
    forall i {:trigger Parent(i)} | 0 < i < |t| && i != |s| ensures t[Parent(i)] <= t[i] {
      assert s[Parent(i)] <= s[i];
    }
  }

  /** Removes the minimum: it is swapped to the end and the new root sifts down. */
  method Pop(h: array<int>, len: nat) returns (n: nat)
    requires 1 <= len <= h.Length && IsHeap(h[..len])
    modifies h
    ensures n == len - 1 && IsHeap(h[..n])
    ensures multiset(h[..n]) + multiset{old(h[0])} == multiset(old(h[..len]))
  {
    ghost var s := h[..len];
    n := len - 1;
    SwapIn(h, len, 0, n);
    LastApart(s, h[..n], h[..len]);
    var moved := Down(h, 0, n);
  }

  // The last element stands in for the root, which is now at the end.
  lemma LastApart(s: seq<int>, t: seq<int>, u: seq<int>)
    requires IsHeap(s) && s != [] && u == Swapped(s, 0, |s| - 1) && t == u[..|s| - 1]
    ensures HeapAbove(t, 0) && multiset(t) + multiset{s[0]} == multiset(s)
  {
    RootReplaced(s, t);
    assert u == t + [s[0]];
    assert multiset(u) == multiset(s);
  }

  lemma RootReplaced(s: seq<int>, t: seq<int>)
    requires IsHeap(s) && |t| + 1 == |s| && forall i :: 0 < i < |t| ==> t[i] == s[i]
    ensures HeapAbove(t, 0)
  {
    forall i {:trigger Parent(i)} | 0 < i < |t| && Parent(i) != 0 ensures t[Parent(i)] <= t[i] {
      assert s[Parent(i)] <= s[i];
    }
  }
}
