/** Restart intervals: reluctant doubling is the Luby sequence, and the restart
    limit computed from it saturates instead of overflowing. */
module Luby {
  import opened Finite

  const INT64_MAX := 0x7fff_ffff_ffff_ffff

  // ----- the definition ----------------------------------------------------------

  /** The number of binary digits. */
  function Digits(n: nat): (k: nat)
    ensures n < Power2(k) && (n > 0 ==> k > 0 && Power2(k - 1) <= n)
  {
    if n == 0 then 0 else Digits(n / 2) + 1
  }

  /** The n-th term, from 1. */
  function LubyTerm(n: nat): nat
    requires n >= 1
  {
    var k := Digits(n);
    if n == Power2(k) - 1 then Power2(k - 1) else LubyTerm(n - Power2(k - 1) + 1)
  }

  // ----- reluctant doubling ---------------------------------------------------------

  /** The least significant set bit. */
  function LowBit(u: nat): (b: nat)
    requires u >= 1
    ensures 1 <= b <= u
  {
    if u % 2 == 1 then 1 else 2 * LowBit(u / 2)
  }

  datatype Pair = Pair(u: nat, v: nat)

  function Rds(s: Pair): (t: Pair)
    requires s.u >= 1
    ensures t.u >= 1
  {
    if LowBit(s.u) == s.v then Pair(s.u + 1, 1) else Pair(s.u, 2 * s.v)
  }

  function After(s: Pair, m: nat): (t: Pair)
    requires s.u >= 1
    ensures t.u >= 1
    decreases m
  {
    if m == 0 then s else After(Rds(s), m - 1)
  }

  /** The values v of m states in a row. */
  function Outputs(s: Pair, m: nat): (r: seq<nat>)
    requires s.u >= 1
    ensures |r| == m
    decreases m
  {
    if m == 0 then [] else [s.v] + Outputs(Rds(s), m - 1)
  }

  lemma {:induction false} AfterSum(s: Pair, a: nat, b: nat)
    requires s.u >= 1
    ensures After(s, a + b) == After(After(s, a), b)
    decreases a
  {
    if a > 0 { AfterSum(Rds(s), a - 1, b); }
  }

  lemma {:induction false} OutputsSum(s: Pair, a: nat, b: nat)
    requires s.u >= 1
    ensures Outputs(s, a + b) == Outputs(s, a) + Outputs(After(s, a), b)
    decreases a
  {
    if a > 0 { OutputsSum(Rds(s), a - 1, b); }
  }

  lemma {:induction false} OutputsAt(s: Pair, m: nat, i: nat)
    requires s.u >= 1 && i < m
    ensures Outputs(s, m)[i] == After(s, i).v
    decreases i
  {
    if i > 0 { OutputsAt(Rds(s), m - 1, i - 1); }
  }

  /** 2^k divides x. */
  predicate Divisible(x: nat, k: nat) {
    k == 0 || (x % 2 == 0 && Divisible(x / 2, k - 1))
  }

  /** Adding 2^k to a multiple of it makes that the lowest bit exactly if it was an even multiple. */
  lemma {:induction false} NextMultiple(x: nat, k: nat)
    requires Divisible(x, k)
    ensures Divisible(x + Power2(k), k) && (Divisible(x + Power2(k), k + 1) <==> !Divisible(x, k + 1))
    ensures LowBit(x + Power2(k)) == Power2(k) <==> Divisible(x, k + 1)
    decreases k
  {
    if k > 0 {
      NextMultiple(x / 2, k - 1);
      assert (x + Power2(k)) / 2 == x / 2 + Power2(k - 1) && (x + Power2(k)) % 2 == 0;
    }
  }

  lemma {:induction false} DivisibleLess(x: nat, k: nat)
    requires k > 0 && Divisible(x, k)
    ensures Divisible(x, k - 1)
    decreases k
  {
    if k > 1 { DivisibleLess(x / 2, k - 1); }
  }

  // ----- blocks --------------------------------------------------------------------

  /** The first 2^k - 1 terms: twice the previous block, then a new power of two. */
  function Block(k: nat): (r: seq<nat>)
    ensures |r| == Power2(k) - 1
  {
    if k == 0 then [] else Block(k - 1) + Block(k - 1) + [Power2(k - 1)]
  }

  lemma {:induction false} BlockIsLuby(k: nat, n: nat)
    requires 1 <= n < Power2(k)
    ensures LubyTerm(n) == Block(k)[n - 1]
    decreases k
  {
    hide Block, Digits;
    assert k > 0 by { NoTerm(k); }
    var half := Power2(k - 1);
    BlockAt(k, n);
    if n < half {
      BlockIsLuby(k - 1, n);
    } else {
      DigitsUnique(n, k);
      if n < Power2(k) - 1 { BlockIsLuby(k - 1, n - half + 1); }
    }
  }

  lemma NoTerm(k: nat)
    requires Power2(k) > 1
    ensures k > 0
  {}

  /** What is at the n-th place of a block. */
  lemma BlockAt(k: nat, n: nat)
    requires k > 0 && 1 <= n < Power2(k)
    ensures var half := Power2(k - 1);
            Block(k)[n - 1] == if n < half then Block(k - 1)[n - 1]
                               else if n < Power2(k) - 1 then Block(k - 1)[n - half] else half
  {}

  lemma {:induction false} Power2Grows(a: nat, b: nat)
    requires a <= b
    ensures Power2(a) <= Power2(b)
    decreases b
  {
    if a < b { Power2Grows(a, b - 1); }
  }

  lemma DigitsUnique(n: nat, k: nat)
    requires k > 0 && Power2(k - 1) <= n < Power2(k)
    ensures Digits(n) == k
  {
    var d := Digits(n);
    if d < k { Power2Grows(d, k - 1); }
    if d > k { Power2Grows(k, d - 1); }
  }

  /** From (x + 1, 1), where 2^k divides x, the next 2^(k+1) - 1 values are a
      block, and the last of them is reached in the state (x + 2^k, 2^k). */
  lemma {:induction false} RunsBlock(x: nat, k: nat)
    requires Divisible(x, k)
    ensures Outputs(Pair(x + 1, 1), Power2(k + 1) - 1) == Block(k + 1)
    ensures After(Pair(x + 1, 1), Power2(k + 1) - 2) == Pair(x + Power2(k), Power2(k))
    decreases k
  {
    hide LowBit, Divisible, Rds, Outputs, After;
    var s := Pair(x + 1, 1);
    if k == 0 {
      FirstBlock(x);
    } else {
      var half, m := Power2(k - 1), Power2(k) - 1;
      DivisibleLess(x, k);
      RunsBlock(x, k - 1);
      NextMultiple(x, k - 1);
      StepUp(s, m, x + half, half);
      RunsBlock(x + half, k - 1);
      NextMultiple(x + half, k - 1);
      StepDouble(Pair(x + half + 1, 1), m, x + half + half, half);
      Joined(s, Pair(x + half + 1, 1), m, Pair(x + Power2(k), Power2(k)));
      assert Power2(k + 1) - 1 == m + m + 1;
    }
  }

  lemma FirstBlock(x: nat)
    ensures Outputs(Pair(x + 1, 1), Power2(1) - 1) == Block(1) && After(Pair(x + 1, 1), Power2(1) - 2) == Pair(x + 1, 1)
  {
    assert Power2(1) == 2 && Power2(0) == 1 && Block(0) == [] && Block(1) == [1];
    assert Outputs(Pair(x + 1, 1), 1) == [1];
  }

  lemma StepUp(s: Pair, m: nat, u: nat, v: nat)
    requires s.u >= 1 && m >= 1 && u >= 1 && After(s, m - 1) == Pair(u, v) && LowBit(u) == v
    ensures After(s, m) == Pair(u + 1, 1)
  {
    OneMore(s, m);
  }

  lemma StepDouble(s: Pair, m: nat, u: nat, v: nat)
    requires s.u >= 1 && m >= 1 && u >= 1 && After(s, m - 1) == Pair(u, v) && LowBit(u) != v
    ensures After(s, m) == Pair(u, 2 * v)
  {
    OneMore(s, m);
  }

  /** Two stretches of m steps and one more value. */
  lemma Joined(s: Pair, t: Pair, m: nat, last: Pair)
    requires s.u >= 1 && t.u >= 1 && After(s, m) == t && After(t, m) == last
    ensures Outputs(s, m + m + 1) == Outputs(s, m) + Outputs(t, m) + [last.v] && After(s, m + m) == last
  {
    AfterSum(s, m, m);
    OutputsSum(s, m, m);
    OutputsSum(s, m + m, 1);
    assert Outputs(last, 1) == [last.v] + Outputs(Rds(last), 0);
  }

  lemma OneMore(s: Pair, m: nat)
    requires s.u >= 1 && m >= 1
    ensures After(s, m) == Rds(After(s, m - 1))
  {
    AfterSum(s, m - 1, 1);
  }

  lemma {:induction false} ZeroDivisible(k: nat)
    ensures Divisible(0, k)
  {
    if k > 0 { ZeroDivisible(k - 1); }
  }

  /** The n-th value of reluctant doubling, started at (1, 1), is the n-th term of the Luby sequence. */
  lemma ReluctantIsLuby(n: nat)
    requires n >= 1
    ensures After(Pair(1, 1), n - 1).v == LubyTerm(n)
  {
    hide Outputs, After, Block, LubyTerm, Divisible, Digits;
    var k := Digits(n);
    ZeroDivisible(k - 1);
    RunsBlock(0, k - 1);
    BlockIsLuby(k, n);
    OutputsAt(Pair(1, 1), Power2(k) - 1, n - 1);
  }

  // ----- the restart limit --------------------------------------------------------------

  const UINT_WRAP := 0x1_0000_0000

  /** The same step on 32-bit words. */
  function RdsWord(s: Pair): Pair
    requires s.u >= 1
  {
    if LowBit(s.u) == s.v then Pair((s.u + 1) % UINT_WRAP, 1) else Pair(s.u, (2 * s.v) % UINT_WRAP)
  }

  /** The value divides the lowest bit of the counter, with a power of two as quotient. */
  predicate Tame(s: Pair) {
    1 <= s.u && 1 <= s.v && Halving(LowBit(s.u), s.v)
  }

  predicate Halving(b: nat, v: nat)
    decreases b
  {
    b == v || (b > 1 && b % 2 == 0 && Halving(b / 2, v))
  }

  lemma {:induction false} HalvingUp(b: nat, v: nat)
    requires Halving(b, v) && b >= 1
    ensures v <= b && (b != v ==> Halving(b, 2 * v))
    decreases b
  {
    if b != v { HalvingUp(b / 2, v); }
  }

  lemma {:induction false} HalvesToOne(u: nat)
    requires u >= 1
    ensures Halving(LowBit(u), 1)
  {
    if u % 2 == 0 { HalvesToOne(u / 2); }
  }

  lemma LowBitFits(u: nat)
    requires u >= 1
    ensures 1 <= LowBit(u) <= u && (u % 2 == 1 ==> LowBit(u) == 1)
  {}

  /** Words never wrap around but when the counter returns to zero. */
  lemma TameStep(s: Pair)
    requires Tame(s) && s.u < UINT_WRAP
    ensures s.v <= s.u && (RdsWord(s).u == 0 || (RdsWord(s) == Rds(s) && Tame(Rds(s)) && Rds(s).u < UINT_WRAP))
    ensures RdsWord(s).u == 0 <==> s.u == UINT_WRAP - 1 && s.v == 1
  {
    hide LowBit, Halving;
    LowBitFits(s.u);
    HalvingUp(LowBit(s.u), s.v);
    if LowBit(s.u) == s.v {
      HalvesToOne(s.u + 1);
    } else {
      HalvingUp(LowBit(s.u), 2 * s.v);
      assert 2 * s.v <= s.u < UINT_WRAP;
    }
  }

  // ----- when words wrap around ------------------------------------------------------------

  /** The states on words repeat after this many calls. */
  const PERIOD := 0x2_0000_0000 - 34

  ghost predicate Earlier(s: Pair, t: Pair) {
    s.u < t.u || (s.u == t.u && s.v < t.v)
  }

  lemma {:induction false} TameAfter(n: nat)
    ensures Tame(After(Pair(1, 1), n))
  {
    if n == 0 {
      assert LowBit(1) == 1;
    } else {
      var s := After(Pair(1, 1), n - 1);
      TameAfter(n - 1);
      OneMore(Pair(1, 1), n);
      HalvingUp(LowBit(s.u), s.v);
      HalvesToOne(s.u + 1);
    }
  }

  /** No state occurs twice: they only grow. */
  lemma {:induction false} Grows(m: nat, n: nat)
    requires m < n
    ensures Earlier(After(Pair(1, 1), m), After(Pair(1, 1), n))
    decreases n
  {
    hide After, LowBit;
    TameAfter(n - 1);
    OneMore(Pair(1, 1), n);
    if m < n - 1 { Grows(m, n - 1); }
  }

  lemma {:induction false} DifferenceDivisible(a: nat, j: nat)
    requires j <= a
    ensures Power2(j) <= Power2(a) && Divisible(Power2(a) - Power2(j), j)
    decreases j
  {
    Power2Grows(j, a);
    if j > 0 {
      DifferenceDivisible(a - 1, j - 1);
      assert Power2(a) - Power2(j) == 2 * (Power2(a - 1) - Power2(j - 1));
    }
  }

  /** From (1, 1) through blocks of a - 1, a - 2, ..., j doublings. */
  lemma {:induction false} Blocks(a: nat, j: nat)
    requires j <= a
    ensures Power2(j) <= Power2(a) && 2 * Power2(a) >= 2 * Power2(j) + (a - j)
    ensures After(Pair(1, 1), 2 * Power2(a) - 2 * Power2(j) - (a - j)) == Pair(Power2(a) - Power2(j) + 1, 1)
    decreases a - j
  {
    hide After, Divisible, LowBit;
    if j == a {
      NoStep();
    } else {
      Blocks(a, j + 1);
      DifferenceDivisible(a, j + 1);
      var x := Power2(a) - Power2(j + 1);
      var half := Power2(j);
      DivisibleLess(x, j + 1);
      RunsBlock(x, j);
      NextMultiple(x, j);
      StepUp(Pair(x + 1, 1), 2 * half - 1, x + half, half);
      AfterSum(Pair(1, 1), 2 * Power2(a) - 4 * half - (a - j - 1), 2 * half - 1);
    }
  }

  lemma WordSize()
    ensures Power2(32) == UINT_WRAP && Power2(1) == 2
  {
    Power2Sum(4, 4);
    Power2Sum(8, 8);
    Power2Sum(16, 16);
  }

  lemma {:induction false} Power2Sum(a: nat, b: nat)
    ensures Power2(a + b) == Power2(a) * Power2(b)
    decreases b
  {
    if b > 0 {
      Power2Sum(a, b - 1);
      assert Power2(a) * (2 * Power2(b - 1)) == 2 * (Power2(a) * Power2(b - 1));
    }
  }

  /** The counter reaches its last value exactly with the last call of the first period. */
  lemma LastState(n: nat)
    ensures After(Pair(1, 1), n) == Pair(UINT_WRAP - 1, 1) <==> n == PERIOD - 1
    ensures After(Pair(1, 1), n).u < UINT_WRAP <==> n < PERIOD
  {
    hide After, Power2;
    WordSize();
    Blocks(32, 1);
    var m := PERIOD - 1;
    assert After(Pair(1, 1), m) == Pair(UINT_WRAP - 1, 1);
    TameAfter(n);
    if n < m { Grows(n, m); }
    if n > m { Grows(m, n); Beyond(n); }
  }

  lemma Beyond(n: nat)
    requires n >= PERIOD && After(Pair(1, 1), PERIOD - 1) == Pair(UINT_WRAP - 1, 1)
    ensures After(Pair(1, 1), n).u >= UINT_WRAP
  {
    hide After;
    OneMore(Pair(1, 1), PERIOD);
    assert LowBit(UINT_WRAP - 1) == 1;
    assert After(Pair(1, 1), PERIOD) == Pair(UINT_WRAP, 1);
    if n > PERIOD { Grows(PERIOD, n); }
  }

  /** One call on words: the next state of the sequence, or zero after the last of a period. */
  lemma WordStep(n: nat)
    requires n < PERIOD
    ensures var s, t := After(Pair(1, 1), n), RdsWord(After(Pair(1, 1), n));
            && s.v < UINT_WRAP && (t.u == 0 <==> n == PERIOD - 1)
            && (n < PERIOD - 1 ==> t == After(Pair(1, 1), n + 1))
  {
    hide After;
    TameAfter(n);
    LastState(n);
    TameStep(After(Pair(1, 1), n));
    OneMore(Pair(1, 1), n + 1);
  }

  /** The values on words are those of the Luby sequence for one call more than a period, and no longer. */
  lemma FirstDifference(n: nat)
    ensures (forall i: nat :: i <= n ==> LubyTerm(i % PERIOD + 1) == LubyTerm(i + 1)) <==> n <= PERIOD
  {
    hide After, LubyTerm;
    forall i: nat | i <= PERIOD ensures LubyTerm(i % PERIOD + 1) == LubyTerm(i + 1) {
      if i == PERIOD { AtPeriod(); }
    }
    AtPeriod();
    assert (PERIOD + 1) % PERIOD == 1;
  }

  lemma AtPeriod()
    ensures LubyTerm(PERIOD + 1) == 1 && LubyTerm(PERIOD + 2) == 2 && LubyTerm(1) == LubyTerm(2) == 1
  {
    hide After, LubyTerm;
    LastState(PERIOD - 1);
    OneMore(Pair(1, 1), PERIOD);
    OneMore(Pair(1, 1), PERIOD + 1);
    OneMore(Pair(1, 1), 1);
    NoStep();
    assert LowBit(UINT_WRAP - 1) == 1 && LowBit(1) == 1 && LowBit(UINT_WRAP) != 1;
    ReluctantIsLuby(PERIOD + 1);
    ReluctantIsLuby(PERIOD + 2);
    ReluctantIsLuby(1);
    ReluctantIsLuby(2);
  }

  class Restarts {
    const restart: int           // base interval; not positive: never restart
    const reluctant: bool
    var rds: Pair                // its counter is zero before the first call and after each period
    var interval: int
    var lim: int
    var maxint: int
    ghost var calls: nat

    ghost predicate Valid()
      reads this
    {
      && 0 <= interval <= INT64_MAX && 0 <= lim <= INT64_MAX && restart <= 0x7fff_ffff
      && (reluctant && restart > 0 ==> Stands(calls, rds))
      && (!reluctant && restart > 0 ==> interval == if calls == 0 then 0 else Doubled(restart, calls))
    }

    constructor (restart: int, reluctant: bool)
      requires restart <= 0x7fff_ffff
      ensures Valid() && calls == 0 && this.restart == restart && this.reluctant == reluctant && interval == 0
    {
      this.restart, this.reluctant := restart, reluctant;
      rds, interval, lim, maxint, calls := Pair(0, 0), 0, 0, 0, 0;
    }

    /** Starts afresh: the first restart is due at once. */
    method Init(flips: int)
      requires 0 <= flips <= INT64_MAX && restart <= 0x7fff_ffff
      modifies this
      ensures Valid() && calls == 0 && lim == flips && interval == 0 && maxint == 0
    {
      rds, interval, lim, maxint, calls := Pair(0, 0), 0, flips, 0, 0;
    }

    /** The next reluctant interval, by the Luby sequence, which starts again after each period. */
    method NextReluctant() returns (next: int)
      requires Valid() && reluctant && restart > 0
      modifies `rds
      ensures 1 <= next <= INT64_MAX && next == LubyTerm(calls % PERIOD + 1) * restart
      ensures Stands(calls + 1, rds)
    {
      var n := calls % PERIOD;
      hide LubyTerm, Tame, LowBit, After, RdsWord;
      NoStep();
      if rds.u == 0 { rds := Pair(1, 1); }
      WordStep(n);
      TameAfter(n);
      PositiveValue(rds);
      ReluctantIsLuby(n + 1);
      NextInPeriod(calls);
      ProductFits(rds.v, restart);
      next := rds.v * restart;
      rds := RdsWord(rds);
    }

    /** Sets the next restart limit: so many flips from now, or never. It saturates instead of overflowing. */
    method IncInnerRestartInterval(flips: int) returns (longer: bool)
      requires Valid() && 0 <= flips <= INT64_MAX
      modifies this
      ensures Valid() && calls == old(calls) + 1 && flips <= lim <= INT64_MAX
      ensures lim == LimitAfter(restart, reluctant, old(calls), flips)
      ensures restart > 0 && reluctant ==> lim == Saturated(flips, LubyTerm(old(calls) % PERIOD + 1) * restart)
      ensures restart > 0 && !reluctant ==>
                var now := if old(interval) == 0 then restart else old(interval);
                lim == Saturated(flips, now) && interval == Saturated(now, now)
      ensures restart <= 0 ==> lim == INT64_MAX
      ensures maxint >= old(maxint) && (longer <==> maxint > old(maxint))
    {
      hide LubyTerm, Tame, After;
      if restart > 0 { DoubledFits(restart, calls); }
      var next := INT64_MAX;
      if restart > 0 {
        if reluctant {
          next := NextReluctant();
        } else {
          if interval == 0 { interval := restart; }
          next := interval;
          if interval <= INT64_MAX / 2 { interval := interval * 2; } else { interval := INT64_MAX; }
        }
      }
      lim := if INT64_MAX - flips >= next then flips + next else INT64_MAX;
      longer := maxint < next;
      if longer { maxint := next; }
      calls := calls + 1;
    }
  }

  /** The base interval doubled n times, as far as it goes. */
  function Doubled(base: int, n: nat): int {
    if n == 0 then base else Saturated(Doubled(base, n - 1), Doubled(base, n - 1))
  }

  lemma {:induction false} DoubledFits(base: int, n: nat)
    requires 0 < base <= INT64_MAX
    ensures 0 < Doubled(base, n) <= INT64_MAX
  {
    if n > 0 { DoubledFits(base, n - 1); }
  }

  /** The restart limit set after a number of earlier ones: never, or the Luby term or
      doubled interval from now. */
  function LimitAfter(base: int, reluctant: bool, calls: nat, flips: int): int {
    if base <= 0 then INT64_MAX
    else Saturated(flips, if reluctant then LubyTerm(calls % PERIOD + 1) * base else Doubled(base, calls))
  }

  /** Where the words stand after a number of calls: at zero exactly after whole periods. */
  ghost predicate Stands(calls: nat, s: Pair) {
    && (s.u == 0 <==> calls % PERIOD == 0)
    && (s.u != 0 ==> s == After(Pair(1, 1), calls % PERIOD))
  }

  lemma NextInPeriod(n: nat)
    ensures (n + 1) % PERIOD == if n % PERIOD == PERIOD - 1 then 0 else n % PERIOD + 1
  {}

  lemma PositiveValue(s: Pair)
    requires Tame(s)
    ensures s.v >= 1
  {}

  lemma NoStep()
    ensures After(Pair(1, 1), 0) == Pair(1, 1)
  {}

  function Saturated(a: int, b: int): int {
    if a + b > INT64_MAX then INT64_MAX else a + b
  }

  lemma ProductFits(v: int, base: int)
    requires 1 <= v < UINT_WRAP && 0 < base <= 0x7fff_ffff
    ensures 0 < v * base <= INT64_MAX
  {
    LessTimes(v, UINT_WRAP, base);
  }

  lemma LessTimes(v: int, w: int, base: int)
    requires 0 < v < w && base > 0
    ensures 0 < v * base < w * base
  {
    assert w * base - v * base == (w - v) * base;
  }
}
