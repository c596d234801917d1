/** Small facts about finite sets, sequences and powers of two. */
module Finite {

  function Max(a: int, b: int): int { if a > b then a else b }

  function Power2(k: nat): (p: nat)
    ensures p >= 1
  {
    if k == 0 then 1 else 2 * Power2(k - 1)
  }

  /** Different numbers below n are at most n. */
  lemma {:induction false} Pigeonhole(s: seq<nat>, n: nat)
    requires forall i :: 0 <= i < |s| ==> s[i] < n
    requires forall i, j :: 0 <= i < j < |s| ==> s[i] != s[j]
    ensures |s| <= n
    decreases n
  {
    if s == [] {
    } else if k :| 0 <= k < |s| && s[k] == n - 1 {
      Pigeonhole(s[..k] + s[k + 1..], n - 1);
    } else {
      assert s[0] < n;
      Pigeonhole(s, n - 1);
    }
  }

  lemma {:induction false} SubsetSize<T>(a: set<T>, b: set<T>)
    ensures a <= b ==> |a| <= |b|
    decreases b
  {
    if a <= b && a != {} {
      var x :| x in a;
      SubsetSize(a - {x}, b - {x});
    }
  }

  lemma {:induction false} Below(s: set<int>, n: nat)
    requires forall x :: x in s ==> 0 <= x < n
    ensures |s| <= n
    decreases n
  {
    if n == 0 {
      assert forall x :: x !in s;
      assert s == {};
    } else {
      Below(s - {n - 1}, n - 1);
    }
  }
}
