/** Sums of an integer function over the indices below a bound. */
module Sums {

  ghost function Sum(f: nat -> int, n: nat): int {
    if n == 0 then 0 else Sum(f, n - 1) + f(n - 1)
  }

  lemma {:induction false} SumSame(f: nat -> int, g: nat -> int, n: nat)
    requires forall i: nat :: i < n ==> f(i) == g(i)
    ensures Sum(f, n) == Sum(g, n)
  {
    if n > 0 { SumSame(f, g, n - 1); }
  }

  // Changing the function at one index changes the sum by the difference there.
  lemma {:induction false} SumBump(f: nat -> int, g: nat -> int, n: nat, k: nat)
    requires k < n && forall i: nat :: i < n && i != k ==> f(i) == g(i)
    ensures Sum(g, n) == Sum(f, n) + g(k) - f(k)
  {
    if k == n - 1 { SumSame(f, g, n - 1); } else { SumBump(f, g, n - 1, k); }
  }

  lemma {:induction false} SumZero(f: nat -> int, n: nat)
    requires forall i: nat :: i < n ==> f(i) == 0
    ensures Sum(f, n) == 0
  {
    if n > 0 { SumZero(f, n - 1); }
  }
}
