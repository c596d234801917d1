/** What the incremental state of the search must equal, recomputed from the
    assignment: true-literal counts, their exclusive or, and break weights. */
module Tally {
  import opened Cnf
  import opened Finite

  // ----- exclusive or --------------------------------------------------------

  /** Exclusive or of two's complement integers, bit by bit. */
  function Xor(a: int, b: int): int
    decreases Abs(a) + Abs(b)
  {
    if a == 0 then b else if b == 0 then a
    else if a == -1 then -1 - b else if b == -1 then -1 - a
    else 2 * Xor(a / 2, b / 2) + (a + b) % 2
  }

  lemma XorBits(a: int, b: int)
    ensures Xor(a, b) / 2 == Xor(a / 2, b / 2) && Xor(a, b) % 2 == (a + b) % 2
  {}

  predicate IsSign(a: int) { a == 0 || a == -1 }

  lemma {:induction false} XorCommutes(a: int, b: int)
    ensures Xor(a, b) == Xor(b, a)
    decreases Abs(a) + Abs(b)
  {
    if !IsSign(a) && !IsSign(b) { XorCommutes(a / 2, b / 2); }
  }

  lemma {:induction false} XorAssociates(a: int, b: int, c: int)
    ensures Xor(Xor(a, b), c) == Xor(a, Xor(b, c))
    decreases Abs(a) + Abs(b) + Abs(c)
  {
    if IsSign(a) && IsSign(b) && IsSign(c) {
    } else {
      hide Xor;
      Halves(a);
      Halves(b);
      Halves(c);
      XorAssociates(a / 2, b / 2, c / 2);
      var p, q := Xor(a, b), Xor(b, c);
      XorBits(a, b);
      XorBits(b, c);
      XorBits(p, c);
      XorBits(a, q);
      Parity(p, c, a, q, b);
      SameBits(Xor(p, c), Xor(a, q));
    }
  }

  lemma Halves(a: int)
    ensures Abs(a / 2) <= Abs(a) && (!IsSign(a) ==> Abs(a / 2) < Abs(a))
  {}

  lemma Parity(p: int, c: int, a: int, q: int, b: int)
    requires p % 2 == (a + b) % 2 && q % 2 == (b + c) % 2
    ensures (p + c) % 2 == (a + q) % 2
  {}

  lemma SameBits(x: int, y: int)
    requires x / 2 == y / 2 && x % 2 == y % 2
    ensures x == y
  {}

  lemma {:induction false} XorCancels(a: int)
    ensures Xor(a, a) == 0
    decreases Abs(a)
  {
    if !IsSign(a) { XorCancels(a / 2); }
  }

  /** Taking the same literal in and out again changes nothing. */
  lemma XorUndo(a: int, b: int)
    ensures Xor(Xor(a, b), b) == a
  {
    XorAssociates(a, b, b);
    XorCancels(b);
  }

  /** The result fits the same machine word as the operands. */
  lemma {:induction false} XorFits(a: int, b: int, bound: nat, bits: nat)
    requires bound == Power2(bits) && 0 - bound <= a < bound && 0 - bound <= b < bound
    ensures 0 - bound <= Xor(a, b) < bound
    decreases bits
  {
    if !IsSign(a) && !IsSign(b) && bits > 0 { XorFits(a / 2, b / 2, Power2(bits - 1), bits - 1); }
  }

  // ----- counting true literals ----------------------------------------------

  /** The assignment is a bit per variable. */
  predicate True(v: seq<bool>, lit: int)
    requires IsLit(lit, |v|)
  {
    if lit > 0 then v[lit] else !v[-lit]
  }

  predicate LitsOver(c: Clause, n: int) {
    forall k :: 0 <= k < |c| ==> IsLit(c[k], n)
  }

  /** Number of true literals of the clause. */
  function NumTrue(c: Clause, v: seq<bool>): nat
    requires LitsOver(c, |v|)
  {
    if c == [] then 0 else
      NumTrue(c[..|c| - 1], v) + if True(v, c[|c| - 1]) then 1 else 0
  }

  /** Exclusive or of the true literals of the clause. */
  function CritTrue(c: Clause, v: seq<bool>): int
    requires LitsOver(c, |v|)
  {
    if c == [] then 0 else
      var x := CritTrue(c[..|c| - 1], v);
      if True(v, c[|c| - 1]) then Xor(x, c[|c| - 1]) else x
  }

  lemma TallyStep(c: Clause, v: seq<bool>, k: nat)
    requires LitsOver(c, |v|) && k < |c|
    ensures NumTrue(c[..k + 1], v) == NumTrue(c[..k], v) + if True(v, c[k]) then 1 else 0
    ensures CritTrue(c[..k + 1], v) == if True(v, c[k]) then Xor(CritTrue(c[..k], v), c[k]) else CritTrue(c[..k], v)
  {
    assert c[..k + 1][..k] == c[..k];
  }

  lemma {:induction false} NumTrueBounded(c: Clause, v: seq<bool>)
    requires LitsOver(c, |v|)
    ensures NumTrue(c, v) <= |c|
  {
    if c != [] { NumTrueBounded(c[..|c| - 1], v); }
  }

  /** The count is zero exactly for falsified clauses, and then nothing is critical. */
  lemma {:induction false} NoneTrue(c: Clause, v: seq<bool>)
    requires LitsOver(c, |v|)
    ensures NumTrue(c, v) == 0 <==> forall l :: l in c ==> IsLit(l, |v|) && !True(v, l)
    ensures NumTrue(c, v) == 0 ==> CritTrue(c, v) == 0
  {
    if c != [] {
      var k := |c| - 1;
      NoneTrue(c[..k], v);
      assert c == c[..k] + [c[k]];
    }
  }

  /** With one true literal, the exclusive or is that literal. */
  lemma {:induction false} OneTrue(c: Clause, v: seq<bool>)
    requires LitsOver(c, |v|) && NumTrue(c, v) == 1
    ensures CritTrue(c, v) in c && IsLit(CritTrue(c, v), |v|) && True(v, CritTrue(c, v))
    ensures forall l :: l in c && IsLit(l, |v|) && True(v, l) ==> l == CritTrue(c, v)
  {
    var k := |c| - 1;
    var d := c[..k];
    assert c == d + [c[k]];
    NoneTrue(d, v);
    if True(v, c[k]) { XorCommutes(0, c[k]); } else { OneTrue(d, v); }
  }

  function Flipped(v: seq<bool>, x: nat): (r: seq<bool>)
    requires x < |v|
    ensures |r| == |v|
  {
    v[x := !v[x]]
  }

  /** How flipping the literal lit to true changes the tally of a clause. */
  lemma {:induction false} FlipTally(c: Clause, v: seq<bool>, lit: int)
    requires Normalised(c, |v|) && IsLit(lit, |v|) && !True(v, lit)
    ensures var w := Flipped(v, Abs(lit));
            if lit in c then NumTrue(c, w) == NumTrue(c, v) + 1 && CritTrue(c, w) == Xor(CritTrue(c, v), lit)
            else if -lit in c then NumTrue(c, w) == NumTrue(c, v) - 1 && CritTrue(c, w) == Xor(CritTrue(c, v), -lit)
            else NumTrue(c, w) == NumTrue(c, v) && CritTrue(c, w) == CritTrue(c, v)
  {
    hide Xor, True;
    if c != [] {
      var k := |c| - 1;
      var d, l := c[..k], c[k];
      assert Normalised(d, |v|) && IsLit(l, |v|);
      SplitLast(c);
      FlipTally(d, v, lit);
      FlipTrue(v, lit, l);
      var x := CritTrue(d, v);
      if l == -lit { XorUndo(x, -lit); }
      if lit in d && True(v, l) { XorSwap(x, lit, l); }
      if -lit in d && True(v, l) { XorSwap(x, -lit, l); }
    }
  }

  lemma SplitLast(c: Clause)
    requires c != [] && forall j, k :: 0 <= j < k < |c| ==> c[j] != c[k] && c[j] != -c[k]
    ensures c[|c| - 1] !in c[..|c| - 1] && -c[|c| - 1] !in c[..|c| - 1]
    ensures forall l :: l in c <==> l in c[..|c| - 1] || l == c[|c| - 1]
  {
    assert c == c[..|c| - 1] + [c[|c| - 1]];
  }

  lemma FlipTrue(v: seq<bool>, lit: int, l: int)
    requires IsLit(lit, |v|) && IsLit(l, |v|) && !True(v, lit)
    ensures True(Flipped(v, Abs(lit)), l) == if l == lit then true else if l == -lit then false else True(v, l)
    ensures True(v, -lit)
  {}

  lemma XorSwap(a: int, b: int, c: int)
    ensures Xor(Xor(a, b), c) == Xor(Xor(a, c), b)
  {
    XorAssociates(a, b, c);
    XorCommutes(b, c);
    XorAssociates(a, c, b);
  }

  // ----- break weights -------------------------------------------------------

  /** The clause is satisfied by lit alone, according to the counters. */
  predicate HeldBy(sat: int, crit: int, lit: int) {
    sat == 1 && crit == lit
  }

  /** Total weight of the first m clauses held by lit alone. */
  function Held(sat: seq<int>, crit: seq<int>, w: seq<int>, lit: int, m: nat): int
    requires |sat| == |crit| == |w| && m <= |w|
  {
    if m == 0 then 0 else Held(sat, crit, w, lit, m - 1) + if HeldBy(sat[m - 1], crit[m - 1], lit) then w[m - 1] else 0
  }

  /** Changing the counters of one clause changes the total by that clause's share. */
  lemma {:induction false} HeldUpdate(sat: seq<int>, crit: seq<int>, w: seq<int>, lit: int, m: nat, c: nat, s: int, x: int)
    requires |sat| == |crit| == |w| && m <= |w| && c < |w|
    ensures Held(sat[c := s], crit[c := x], w, lit, m) == Held(sat, crit, w, lit, m)
              + (if c < m && HeldBy(s, x, lit) then w[c] else 0)
              - (if c < m && HeldBy(sat[c], crit[c], lit) then w[c] else 0)
  {
    if m > 0 { HeldUpdate(sat, crit, w, lit, m - 1, c, s, x); }
  }

  lemma {:induction false} HeldBounded(sat: seq<int>, crit: seq<int>, w: seq<int>, lit: int, m: nat, top: nat)
    requires |sat| == |crit| == |w| && m <= |w| && forall k :: 0 <= k < m ==> 0 <= w[k] <= top
    ensures 0 <= Held(sat, crit, w, lit, m) <= top * m
    ensures forall k :: 0 <= k < m && HeldBy(sat[k], crit[k], lit) ==> w[k] <= Held(sat, crit, w, lit, m)
  {
    hide HeldBy;
    if m > 0 {
      HeldBounded(sat, crit, w, lit, m - 1, top);
      assert top * m == top * (m - 1) + top;
    }
  }

  /** Counters, critical literals and clause weights agree with the assignment. */
  ghost predicate Counted(f: Formula, v: seq<bool>, sat: seq<int>, crit: seq<int>) {
    && AllNormalised(f, |v|) && |sat| == |crit| == |f|
    && forall c :: 0 <= c < |f| ==> CountedAt(f[c], v, sat[c], crit[c])
  }

  ghost predicate CountedAt(c: Clause, v: seq<bool>, sat: int, crit: int) {
    Normalised(c, |v|) && sat == NumTrue(c, v) && crit == CritTrue(c, v)
  }

  /** Total weight of the clauses that v satisfies and that flipping lit falsifies. */
  ghost function BrokenWeight(f: Formula, v: seq<bool>, w: seq<int>, lit: int, m: nat): int
    requires AllNormalised(f, |v|) && |w| == |f| && m <= |f| && IsLit(lit, |v|)
  {
    if m == 0 then 0 else
      BrokenWeight(f, v, w, lit, m - 1)
      + if NumTrue(f[m - 1], v) > 0 && NumTrue(f[m - 1], Flipped(v, Abs(lit))) == 0 then w[m - 1] else 0
  }

  /** The break weight kept for -lit is the weight of the clauses that flipping
      the false literal lit would falsify. */
  lemma {:induction false} HeldIsBroken(f: Formula, v: seq<bool>, sat: seq<int>, crit: seq<int>, w: seq<int>, lit: int, m: nat)
    requires Counted(f, v, sat, crit) && |w| == |f| && m <= |f| && IsLit(lit, |v|) && !True(v, lit)
    ensures Held(sat, crit, w, -lit, m) == BrokenWeight(f, v, w, lit, m)
  {
    if m > 0 {
      HeldIsBroken(f, v, sat, crit, w, lit, m - 1);
      var c := f[m - 1];
      assert CountedAt(c, v, sat[m - 1], crit[m - 1]);
      FlipTally(c, v, lit);
      if sat[m - 1] == 1 { OneTrue(c, v); }
    }
  }

  // ----- the counters while a flip is under way ------------------------------

  /** The clauses already visited are counted for the new assignment w, the
      others still for the old assignment v. */
  ghost predicate Midway(f: Formula, v: seq<bool>, w: seq<bool>, done: set<int>, sat: seq<int>, crit: seq<int>) {
    && AllNormalised(f, |v|) && |w| == |v| && |sat| == |crit| == |f|
    && forall c :: 0 <= c < |f| ==> CountedAt(f[c], if c in done then w else v, sat[c], crit[c])
  }

  lemma MakeStep(f: Formula, v: seq<bool>, lit: int, done: set<int>, sat: seq<int>, crit: seq<int>, c: nat)
    requires IsLit(lit, |v|) && !True(v, lit) && Midway(f, v, Flipped(v, Abs(lit)), done, sat, crit)
    requires c < |f| && lit in f[c] && c !in done
    ensures Midway(f, v, Flipped(v, Abs(lit)), done + {c}, sat[c := sat[c] + 1], crit[c := Xor(crit[c], lit)])
    ensures CriticalOK(f, |v|, c, sat, crit)
  {
    assert CountedAt(f[c], v, sat[c], crit[c]);
    CriticalFacts(f, v, c, sat, crit);
    FlipTally(f[c], v, lit);
    hide NumTrue, CritTrue, Xor;
  }

  lemma BreakStep(f: Formula, v: seq<bool>, lit: int, done: set<int>, sat: seq<int>, crit: seq<int>, c: nat)
    requires IsLit(lit, |v|) && !True(v, lit) && Midway(f, v, Flipped(v, Abs(lit)), done, sat, crit)
    requires c < |f| && -lit in f[c] && lit !in f[c] && c !in done
    ensures var w := Flipped(v, Abs(lit));
            Midway(f, v, w, done + {c}, sat[c := sat[c] - 1], crit[c := Xor(crit[c], -lit)])
    ensures sat[c] > 0 && CriticalOK(f, |v|, c, sat, crit)
    ensures sat[c] == 1 ==> crit[c] == -lit
    ensures sat[c] == 2 ==> IsLit(Xor(crit[c], -lit), |v|)
    ensures sat[c] == 1 ==> Xor(crit[c], -lit) == 0
  {
    var w := Flipped(v, Abs(lit));
    assert CountedAt(f[c], v, sat[c], crit[c]);
    CriticalFacts(f, v, c, sat, crit);
    FlipTally(f[c], v, lit);
    assert True(v, -lit);
    NoneTrue(f[c], v);
    if sat[c] == 1 { OneTrue(f[c], v); XorCancels(-lit); }
    if sat[c] == 2 { OneTrue(f[c], w); }
    hide NumTrue, CritTrue, Xor;
  }

  /** No true literal, no critical literal; one true literal, it is critical. */
  ghost predicate CriticalOK(f: Formula, n: int, c: nat, sat: seq<int>, crit: seq<int>)
    requires |sat| == |crit| == |f| && c < |f|
  {
    sat[c] >= 0 && (sat[c] == 0 ==> crit[c] == 0) && (sat[c] == 1 ==> IsLit(crit[c], n))
  }

  lemma CriticalFacts(f: Formula, v: seq<bool>, c: nat, sat: seq<int>, crit: seq<int>)
    requires |sat| == |crit| == |f| && c < |f| && CountedAt(f[c], v, sat[c], crit[c])
    ensures CriticalOK(f, |v|, c, sat, crit)
  {
    NoneTrue(f[c], v);
    if sat[c] == 1 { OneTrue(f[c], v); }
  }

  /** Once every clause with one of the two literals is visited, all counters
      are those of the new assignment. */
  lemma FlipDone(f: Formula, v: seq<bool>, lit: int, done: set<int>, sat: seq<int>, crit: seq<int>)
    requires IsLit(lit, |v|) && !True(v, lit) && Midway(f, v, Flipped(v, Abs(lit)), done, sat, crit)
    requires forall c :: 0 <= c < |f| && (lit in f[c] || -lit in f[c]) ==> c in done
    ensures Counted(f, Flipped(v, Abs(lit)), sat, crit)
  {
    forall c | 0 <= c < |f| ensures CountedAt(f[c], Flipped(v, Abs(lit)), sat[c], crit[c]) {
      assert CountedAt(f[c], if c in done then Flipped(v, Abs(lit)) else v, sat[c], crit[c]);
      if c !in done { FlipTally(f[c], v, lit); }
    }
  }

  // ----- break weights under the two counter updates -------------------------

  /** The break weights are the totals recomputed from the counters. */
  ghost predicate WeightsKept(n: nat, sat: seq<int>, crit: seq<int>, w: seq<int>, wb: seq<int>) {
    && |sat| == |crit| == |w| && |wb| == 2 * n
    && (forall k :: 0 <= k < |w| ==> 1 <= w[k] <= 7)
    && forall l :: IsLit(l, n) ==> wb[Ref(l)] == Held(sat, crit, w, l, |w|)
  }

  /** With at most 2^25 - 1 clauses no break weight overflows 32 bits. */
  lemma NoOverflow(n: nat, sat: seq<int>, crit: seq<int>, w: seq<int>, wb: seq<int>, lit: int)
    requires WeightsKept(n, sat, crit, w, wb) && IsLit(lit, n) && |w| < 0x200_0000
    ensures 0 <= wb[Ref(lit)] < 0x1_0000_0000
  {
    HeldBounded(sat, crit, w, lit, |w|, 7);
  }

  /** Which break weights change when the counters of clause c become s and x. */
  lemma CounterUpdate(n: nat, sat: seq<int>, crit: seq<int>, w: seq<int>, wb: seq<int>, wb': seq<int>, c: nat, s: int, x: int)
    requires WeightsKept(n, sat, crit, w, wb) && c < |w| && |wb'| == 2 * n
    requires forall l :: IsLit(l, n) ==>
               wb'[Ref(l)] == wb[Ref(l)] + (if HeldBy(s, x, l) then w[c] else 0)
                                         - (if HeldBy(sat[c], crit[c], l) then w[c] else 0)
    ensures WeightsKept(n, sat[c := s], crit[c := x], w, wb')
  {
    forall l | IsLit(l, n) ensures wb'[Ref(l)] == Held(sat[c := s], crit[c := x], w, l, |w|) {
      HeldUpdate(sat, crit, w, l, |w|, c, s, x);
    }
  }

  /** A held clause contributes at least its weight. */
  lemma HeldContributes(n: nat, sat: seq<int>, crit: seq<int>, w: seq<int>, wb: seq<int>, c: nat, lit: int)
    requires WeightsKept(n, sat, crit, w, wb) && c < |w| && IsLit(lit, n) && HeldBy(sat[c], crit[c], lit)
    ensures wb[Ref(lit)] >= w[c]
  {
    HeldBounded(sat, crit, w, lit, |w|, 7);
  }

  // ----- scanning for a break weight -----------------------------------------

  /** Clauses without -lit are never falsified by making lit true. */
  lemma {:induction false} BrokenGap(f: Formula, v: seq<bool>, w: seq<int>, lit: int, a: nat, b: nat)
    requires AllNormalised(f, |v|) && |w| == |f| && a <= b <= |f| && IsLit(lit, |v|) && !True(v, lit)
    requires forall c :: a <= c < b ==> -lit !in f[c]
    ensures BrokenWeight(f, v, w, lit, b) == BrokenWeight(f, v, w, lit, a)
    decreases b
  {
    if a < b {
      BrokenGap(f, v, w, lit, a, b - 1);
      FlipTally(f[b - 1], v, lit);
    }
  }

  /** A clause with -lit is falsified exactly if -lit was its only true literal. */
  lemma BrokenStep(f: Formula, v: seq<bool>, w: seq<int>, lit: int, c: nat)
    requires AllNormalised(f, |v|) && |w| == |f| && c < |f| && IsLit(lit, |v|) && !True(v, lit) && -lit in f[c]
    ensures BrokenWeight(f, v, w, lit, c + 1) == BrokenWeight(f, v, w, lit, c) + if NumTrue(f[c], v) == 1 then w[c] else 0
  {
    assert Normalised(f[c], |v|);
    NoneTrue(f[c], v);
    FlipTally(f[c], v, lit);
    assert lit !in f[c];
  }

  lemma {:induction false} BrokenBounded(f: Formula, v: seq<bool>, w: seq<int>, lit: int, m: nat)
    requires AllNormalised(f, |v|) && |w| == |f| && m <= |f| && IsLit(lit, |v|)
    requires forall k :: 0 <= k < |w| ==> 1 <= w[k] <= 7
    ensures 0 <= BrokenWeight(f, v, w, lit, m) <= 7 * m
  {
    if m > 0 { BrokenBounded(f, v, w, lit, m - 1); }
  }

  /** A counter of the width chosen for the longest clause never wraps around. */
  lemma CounterFits(c: Clause, v: seq<bool>, maxlen: nat)
    requires LitsOver(c, |v|) && |c| <= maxlen
    ensures NumTrue(c, v) <= maxlen
  {
    NumTrueBounded(c, v);
  }
}
