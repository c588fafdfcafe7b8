/** Sums of natural numbers, by which runs are bounded. */
module Sums {

  function Sum(w: seq<nat>): nat {
    if w == [] then 0 else w[0] + Sum(w[1..])
  }

  lemma {:induction false} SumDrops(a: seq<nat>, b: seq<nat>, i: nat)
    requires |a| == |b| && i < |a| && b[i] < a[i]
    requires forall j :: 0 <= j < |a| && j != i ==> b[j] == a[j]
    ensures Sum(b) < Sum(a)
  {
    if i == 0 { assert a[1..] == b[1..]; } else { SumDrops(a[1..], b[1..], i - 1); }
  }

  lemma OneMore(n: nat, p: nat)
    ensures (n + 1) * p == n * p + p
  {}

  lemma {:induction false} SumAtMost(w: seq<nat>, most: nat)
    requires forall k :: 0 <= k < |w| ==> w[k] <= most
    ensures Sum(w) <= |w| * most
  {
    if w != [] {
      SumAtMost(w[1..], most);
      OneMore(|w| - 1, most);
    }
  }
}
