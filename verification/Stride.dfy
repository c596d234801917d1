/** The walk over the cached assignments: a stride coprime to the size of the
    cache visits every entry exactly once. */
module Stride {
  import opened Finite

  // ----- divisors -----------------------------------------------------------------

  ghost predicate Times(d: int, q: int, n: int) { n == d * q }

  ghost predicate Divides(d: int, n: int) {
    exists q :: Times(d, q, n)
  }

  /** g divides both, and every common divisor divides g. */
  ghost predicate IsGcd(a: nat, b: nat, g: nat) {
    g > 0 && Divides(g, a) && Divides(g, b) && forall d: nat :: d > 0 && Divides(d, a) && Divides(d, b) ==> Divides(d, g)
  }

  /** g is a sum of multiples of a and b. */
  ghost predicate Combines(a: int, b: int, x: int, y: int, g: int) {
    a * x + b * y == g
  }

  lemma Quotient(d: int, n: int) returns (q: int)
    requires Divides(d, n)
    ensures n == d * q
  {
    q :| Times(d, q, n);
  }

  lemma MultipleDivides(d: int, q: int)
    ensures Divides(d, d * q)
  {
    assert Times(d, q, d * q);
  }

  /** The remainder has the same common divisors with b as a has. */
  lemma StepKeeps(a: nat, b: nat, d: nat)
    requires b > 0 && d > 0 && Divides(d, b)
    ensures Divides(d, a) <==> Divides(d, a % b)
  {
    var q := a / b;
    var k := Quotient(d, b);
    assert a == b * q + a % b;
    assert b * q == d * (k * q);
    if Divides(d, a) {
      var i := Quotient(d, a);
      assert a % b == d * (i - k * q);
      MultipleDivides(d, i - k * q);
    }
    if Divides(d, a % b) {
      var i := Quotient(d, a % b);
      assert a == d * (i + k * q);
      MultipleDivides(d, i + k * q);
    }
  }

  lemma GcdStep(a: nat, b: nat, g: nat)
    requires b > 0 && IsGcd(b, a % b, g)
    ensures IsGcd(a, b, g)
  {
    StepKeeps(a, b, g);
    forall d: nat | d > 0 && Divides(d, a) && Divides(d, b) ensures Divides(d, g) {
      StepKeeps(a, b, d);
    }
  }

  lemma {:induction false} GcdExists(a: nat, b: nat) returns (g: nat, x: int, y: int)
    requires a > 0 || b > 0
    ensures IsGcd(a, b, g) && Combines(a, b, x, y, g)
    decreases b
  {
    if b == 0 {
      g, x, y := a, 1, 0;
      assert Times(a, 1, a) && Times(a, 0, 0);
    } else {
      var u, v;
      g, u, v := GcdExists(b, a % b);
      GcdStep(a, b, g);
      x, y := v, u - a / b * v;
      Rewrite(a, b, u, v, g);
    }
  }

  lemma Rewrite(a: nat, b: nat, u: int, v: int, g: nat)
    requires b > 0 && b * u + a % b * v == g
    ensures a * v + b * (u - a / b * v) == g
  {
    var q, r := a / b, a % b;
    assert a == b * q + r;
    assert a * v == b * q * v + r * v;
    assert b * (u - q * v) == b * u - b * q * v;
  }

  lemma DividesBound(d: nat, g: nat)
    requires d > 0 && g > 0 && Divides(d, g)
    ensures d <= g
  {
    var q := Quotient(d, g);
    assert q <= 0 ==> d * q <= 0;
    assert d * (q - 1) >= 0;
  }

  lemma GcdUnique(a: nat, b: nat, g: nat, h: nat)
    requires IsGcd(a, b, g) && IsGcd(a, b, h)
    ensures g == h
  {
    DividesBound(g, h);
    DividesBound(h, g);
  }

  /** Euclid's lemma. */
  lemma CoprimeDivides(n: nat, delta: nat, k: int)
    requires n > 0 && IsGcd(n, delta, 1) && Divides(n, k * delta)
    ensures Divides(n, k)
  {
    var g, x, y := GcdExists(n, delta);
    GcdUnique(n, delta, g, 1);
    var i := Quotient(n, k * delta);
    calc {
      k;
      k * (n * x + delta * y);
      n * (k * x) + (k * delta) * y;
      n * (k * x) + n * i * y;
      n * (k * x + i * y);
    }
    MultipleDivides(n, k * x + i * y);
  }

  /** The greatest common divisor, by remainders. */
  method Gcd(a: nat, b: nat) returns (g: nat)
    requires a > 0 || b > 0
    ensures IsGcd(a, b, g)
  {
    var x: nat, y: nat := a, b;
    ghost var h, u, v := GcdExists(a, b);
    while y != 0
      invariant (x > 0 || y > 0) && IsGcd(x, y, h)
      decreases y
    {
      var r := x % y;
      GcdBack(x, y, h);
      x, y := y, r;
    }
    g := x;
    GcdZero(x, h);
  }

  lemma GcdBack(a: nat, b: nat, g: nat)
    requires b > 0 && IsGcd(a, b, g)
    ensures IsGcd(b, a % b, g)
  {
    var h, x, y := GcdExists(b, a % b);
    GcdStep(a, b, h);
    GcdUnique(a, b, g, h);
  }

  lemma GcdZero(a: nat, g: nat)
    requires a > 0 && IsGcd(a, 0, g)
    ensures g == a
  {
    assert Times(a, 1, a) && Times(a, 0, 0);
    assert IsGcd(a, 0, a);
    GcdUnique(a, 0, a, g);
  }

  // ----- the walk --------------------------------------------------------------------

  /** After t strides from the start the walk is at j, having wrapped around w times. */
  ghost predicate At(n: nat, start: nat, delta: nat, t: nat, j: nat, w: int) {
    j < n && start + t * delta == j + w * n
  }

  /** The entries visited: the k-th after k strides. */
  ghost predicate Walk(n: nat, start: nat, delta: nat, visited: seq<nat>) {
    forall t :: 0 <= t < |visited| ==> IsAt(n, start, delta, t, visited[t])
  }

  ghost predicate IsAt(n: nat, start: nat, delta: nat, t: nat, j: nat) {
    exists w :: At(n, start, delta, t, j, w)
  }

  /** Two times at the same entry differ by a multiple of the size. */
  lemma SameEntry(n: nat, start: nat, delta: nat, t: nat, u: nat, j: nat, v: int, w: int)
    requires n > 0 && IsGcd(n, delta, 1) && t <= u && At(n, start, delta, t, j, v) && At(n, start, delta, u, j, w)
    ensures Divides(n, u - t)
  {
    assert (u - t) * delta == n * (w - v) by {
      assert u * delta - t * delta == w * n - v * n;
      assert u * delta - t * delta == (u - t) * delta;
      assert w * n - v * n == n * (w - v);
    }
    assert Times(n, w - v, (u - t) * delta);
    CoprimeDivides(n, delta, u - t);
  }

  lemma SmallMultiple(n: nat, d: nat)
    requires n > 0 && Divides(n, d)
    ensures d == 0 || d >= n
  {
    if d > 0 { DividesBound(n, d); }
  }

  lemma WalkDistinct(n: nat, start: nat, delta: nat, visited: seq<nat>)
    requires n > 0 && IsGcd(n, delta, 1) && Walk(n, start, delta, visited)
    ensures forall t, u :: 0 <= t < u < |visited| && u - t < n ==> visited[t] != visited[u]
  {
    forall t, u | 0 <= t < u < |visited| && u - t < n ensures visited[t] != visited[u] {
      if visited[t] == visited[u] {
        var v :| At(n, start, delta, t, visited[t], v);
        var w :| At(n, start, delta, u, visited[u], w);
        SameEntry(n, start, delta, t, u, visited[t], v, w);
        SmallMultiple(n, u - t);
      }
    }
  }

  /** After n strides the walk is back. */
  lemma WalkReturns(n: nat, start: nat, delta: nat, t: nat, j: nat, w: int)
    requires n > 0 && start < n && At(n, start, delta, t, j, w)
    ensures j < n && (t == n ==> j == start)
  {
    if t != n { return; }
    assert j - start == n * (delta - w) by { assert n * delta - w * n == n * (delta - w); }
    NoSmallMultiple(n, delta - w, j - start);
  }

  lemma NoSmallMultiple(n: int, q: int, d: int)
    requires n > 0 && d == n * q && -n < d < n
    ensures d == 0
  {
    assert q >= 1 ==> n * q >= n;
    assert q <= -1 ==> n * q <= -n;
  }

  lemma StrideOn(n: nat, start: nat, delta: nat, t: nat, j: nat, w: int)
    requires At(n, start, delta, t, j, w) && delta < n
    ensures if j + delta >= n then At(n, start, delta, t + 1, j + delta - n, w + 1) else At(n, start, delta, t + 1, j + delta, w)
  {
    assert (t + 1) * delta == t * delta + delta;
    assert (w + 1) * n == w * n + n;
  }

  lemma {:induction false} AllVisited(s: seq<nat>, n: nat)
    requires |s| == n && (forall i :: 0 <= i < |s| ==> s[i] < n) && forall i, j :: 0 <= i < j < |s| ==> s[i] != s[j]
    ensures forall x :: 0 <= x < n ==> x in s
    decreases n
  {
    if n > 0 {
      if k :| 0 <= k < |s| && s[k] == n - 1 {
        var r := s[..k] + s[k + 1..];
        AllVisited(r, n - 1);
        forall x | 0 <= x < n ensures x in s { if x < n - 1 { assert x in r; } }
      } else {
        Pigeonhole(s, n - 1);
      }
    }
  }

  /** The largest stride up to the given one that is coprime to the size of the cache. */
  method CoprimeStride(ncache: nat, from: nat) returns (delta: nat)
    requires 1 <= from < ncache
    ensures 1 <= delta <= from && IsGcd(ncache, delta, 1)
    ensures forall d: nat :: delta < d <= from ==> !IsGcd(ncache, d, 1)
  {
    hide IsGcd;
    delta := from;
    var g := Gcd(ncache, delta);
    while g != 1
      invariant 1 <= delta <= from && IsGcd(ncache, delta, g)
      invariant forall d: nat :: delta < d <= from ==> !IsGcd(ncache, d, 1)
      decreases delta
    {
      OneIsCoprime(ncache, delta, g);
      delta := delta - 1;
      g := Gcd(ncache, delta);
    }
  }

  lemma OneIsCoprime(n: nat, delta: nat, g: nat)
    requires n > 0 && IsGcd(n, delta, g) && g != 1
    ensures delta != 1 && !IsGcd(n, delta, 1)
  {
    if delta == 1 { DividesBound(g, 1); }
    if IsGcd(n, delta, 1) { GcdUnique(n, delta, g, 1); }
  }

  lemma WalkNext(n: nat, start: nat, delta: nat, visited: seq<nat>, j: nat, w: int)
    requires Walk(n, start, delta, visited) && At(n, start, delta, |visited|, j, w)
    ensures Walk(n, start, delta, visited + [j]) && j < n
  {
    var v := visited + [j];
    assert IsAt(n, start, delta, |visited|, j);
    forall t | 0 <= t < |v| ensures IsAt(n, start, delta, t, v[t]) {
      if t < |visited| { assert IsAt(n, start, delta, t, visited[t]); }
    }
  }

  lemma WalkStart(n: nat, start: nat, delta: nat)
    requires start < n
    ensures Walk(n, start, delta, []) && At(n, start, delta, 0, start, 0)
  {}

  lemma OneEntry()
    ensures IsGcd(1, 0, 1)
  {
    assert Times(1, 1, 1) && Times(1, 0, 0);
  }

  /** Back at the start, every entry has been visited once. */
  lemma Finished(n: nat, start: nat, delta: nat, visited: seq<nat>, w: int)
    requires n > 0 && start < n && IsGcd(n, delta, 1) && Walk(n, start, delta, visited) && 0 < |visited| <= n
    requires At(n, start, delta, |visited|, start, w)
    ensures |visited| == n && (forall i, j :: 0 <= i < j < |visited| ==> visited[i] != visited[j])
    ensures forall x :: 0 <= x < n ==> x in visited
  {
    assert At(n, start, delta, 0, start, 0);
    SameEntry(n, start, delta, 0, |visited|, start, 0, w);
    SmallMultiple(n, |visited|);
    WalkDistinct(n, start, delta, visited);
    forall i | 0 <= i < |visited| ensures visited[i] < n { var v :| At(n, start, delta, i, visited[i], v); }
    AllVisited(visited, n);
  }

  /** Goes once around the cache, and picks an entry of the greatest minimum, if it is worse than the new one. */
  method PickReplaced(mins: seq<int>, min: int, cachemax: int, start: nat, from: nat) returns (rpos: nat, ghost visited: seq<nat>)
    requires |mins| > 0 && start < |mins| && (|mins| == 1 ==> start == 0) && (|mins| > 1 ==> 1 <= from < |mins|)
    requires forall j :: 0 <= j < |mins| ==> mins[j] <= cachemax
    ensures |visited| == |mins| && (forall i, j :: 0 <= i < j < |visited| ==> visited[i] != visited[j])
    ensures forall x :: 0 <= x < |mins| ==> x in visited
    ensures rpos <= |mins| && (rpos < |mins| ==> mins[rpos] == cachemax > min)
    ensures rpos == |mins| ==> forall j :: 0 <= j < |mins| ==> !(mins[j] == cachemax > min)
  {
    hide At, IsAt, Walk, IsGcd;
    var ncache := |mins|;
    var delta := 0;
    if ncache > 1 { delta := CoprimeStride(ncache, from); } else { OneEntry(); }
    rpos := ncache;
    var j: nat := start;
    visited := [];
    ghost var w := 0;
    WalkStart(ncache, start, delta);
    var again := true;
    while again
      invariant |visited| <= ncache && j < ncache && At(ncache, start, delta, |visited|, j, w) && Walk(ncache, start, delta, visited)
      invariant (again <==> |visited| == 0 || j != start) && (again ==> |visited| < ncache)
      invariant rpos <= ncache && (rpos < ncache ==> mins[rpos] == cachemax > min)
      invariant rpos == ncache ==> forall x :: x in visited ==> x < ncache && !(mins[x] == cachemax > min)
      decreases ncache - |visited|
    {
      var otherMin := mins[j];
      if otherMin == cachemax && otherMin > min { rpos := j; }
      StrideOn(ncache, start, delta, |visited|, j, w);
      WalkNext(ncache, start, delta, visited, j, w);
      visited := visited + [j];
      if j + delta >= ncache { j, w := j + delta - ncache, w + 1; } else { j := j + delta; }
      again := j != start;
      WalkReturns(ncache, start, delta, |visited|, j, w);
    }
    Finished(ncache, start, delta, visited, w);
    forall x | 0 <= x < |mins| && rpos == ncache ensures !(mins[x] == cachemax > min) {
      assert x in visited;
    }
  }
}
