/** Sums of costs, for bounds on the work of loops, and the size of a subset. */
module Sums {
  function SumTo(costs: seq<nat>, n: nat): nat
    requires n <= |costs|
  {
    if n == 0 then 0 else SumTo(costs, n - 1) + costs[n - 1]
  }

  function Sum(costs: seq<nat>): nat { SumTo(costs, |costs|) }

  lemma {:induction false} SumGrows(costs: seq<nat>, n: nat, m: nat)
    requires n <= m <= |costs|
    ensures SumTo(costs, n) <= SumTo(costs, m)
  {
    if n < m { SumGrows(costs, n, m - 1); }
  }

  lemma SumStart(costs: seq<nat>)
    ensures SumTo(costs, 0) == 0 && (costs == [] ==> Sum(costs) == 0)
  {}

  /** One more cost, within the sum of all. */
  lemma SumStep(costs: seq<nat>, n: nat)
    requires n < |costs|
    ensures SumTo(costs, n + 1) == SumTo(costs, n) + costs[n] <= Sum(costs)
  {
    SumGrows(costs, n + 1, |costs|);
  }

  lemma SubsetSize<T>(a: set<T>, b: set<T>)
    requires a <= b
    ensures |a| <= |b|
  {
    assert b == a + (b - a);
  }
}
