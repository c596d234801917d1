/** Clause weights: what the weight sums of the weighted search must equal, and
    why flipping a literal changes the weight of the falsified clauses by its gain. */
module Weights {
  import opened Cnf
  import opened Tally
  import opened Finite

  // ----- sums over all clauses ---------------------------------------------------

  ghost function Sum(t: seq<real>): real {
    if t == [] then 0.0 else Sum(t[..|t| - 1]) + t[|t| - 1]
  }

  lemma {:induction false} SumUpdate(t: seq<real>, c: nat, x: real)
    requires c < |t|
    ensures Sum(t[c := x]) == Sum(t) - t[c] + x
  {
    var k := |t| - 1;
    if c == k {
      assert t[c := x][..k] == t[..k];
    } else {
      SumUpdate(t[..k], c, x);
      assert t[c := x][..k] == t[..k][c := x];
    }
  }

  lemma {:induction false} SumLinear(p: seq<real>, q: seq<real>, u: seq<real>, s: seq<real>)
    requires |p| == |q| == |u| == |s|
    requires forall c :: 0 <= c < |p| ==> q[c] == p[c] - u[c] + s[c]
    ensures Sum(q) == Sum(p) - Sum(u) + Sum(s)
  {
    if p != [] {
      var k := |p| - 1;
      SumLinear(p[..k], q[..k], u[..k], s[..k]);
    }
  }

  lemma {:induction false} SumNonnegative(t: seq<real>)
    requires forall c :: 0 <= c < |t| ==> t[c] >= 0.0
    ensures Sum(t) >= 0.0
    ensures forall c :: 0 <= c < |t| ==> t[c] <= Sum(t)
  {
    if t != [] {
      var k := |t| - 1;
      SumNonnegative(t[..k]);
      forall c | 0 <= c < |t| ensures t[c] <= Sum(t) { if c < k { assert t[..k][c] == t[c]; } }
    }
  }

  lemma {:induction false} SumZero(t: seq<real>)
    requires forall c :: 0 <= c < |t| ==> t[c] == 0.0
    ensures Sum(t) == 0.0
  {
    if t != [] { SumZero(t[..|t| - 1]); }
  }

  // ----- the share of one clause -----------------------------------------------------

  function UnsatTerm(c: Clause, sat: int, w: real, l: int): real {
    if sat == 0 && l in c then w else 0.0
  }

  function Sat1Term(sat: int, crit: int, w: real, l: int): real {
    if sat == 1 && crit == l then w else 0.0
  }

  function FalsifiedTerm(sat: int, w: real): real {
    if sat == 0 then w else 0.0
  }

  function CountTerm(c: Clause, sat: int, v: int): real {
    if sat == 0 && (v in c || -v in c) then 1.0 else 0.0
  }

  ghost predicate Shaped(f: Formula, sat: seq<int>, crit: seq<int>, w: seq<real>) {
    |f| == |sat| == |crit| == |w|
  }

  ghost function UnsatTerms(f: Formula, sat: seq<int>, w: seq<real>, l: int): (r: seq<real>)
    requires |f| == |sat| == |w|
    ensures |r| == |f|
  {
    seq(|f|, c requires 0 <= c < |f| => UnsatTerm(f[c], sat[c], w[c], l))
  }

  ghost function Sat1Terms(sat: seq<int>, crit: seq<int>, w: seq<real>, l: int): (r: seq<real>)
    requires |sat| == |crit| == |w|
    ensures |r| == |w|
  {
    seq(|w|, c requires 0 <= c < |w| => Sat1Term(sat[c], crit[c], w[c], l))
  }

  ghost function FalsifiedTerms(sat: seq<int>, w: seq<real>): (r: seq<real>)
    requires |sat| == |w|
    ensures |r| == |w|
  {
    seq(|w|, c requires 0 <= c < |w| => FalsifiedTerm(sat[c], w[c]))
  }

  ghost function CountTerms(f: Formula, sat: seq<int>, v: int): (r: seq<real>)
    requires |f| == |sat|
    ensures |r| == |f|
  {
    seq(|f|, c requires 0 <= c < |f| => CountTerm(f[c], sat[c], v))
  }

  /** The total weight of the falsified clauses. */
  ghost function Potential(sat: seq<int>, w: seq<real>): real
    requires |sat| == |w|
  {
    Sum(FalsifiedTerms(sat, w))
  }

  // ----- what the incremental sums must equal ---------------------------------------------

  /** For each literal, the weight of the falsified clauses with it and of the clauses it holds alone. */
  ghost predicate LitKept(f: Formula, sat: seq<int>, crit: seq<int>, w: seq<real>, uw: seq<real>, s1: seq<real>, l: int)
    requires Shaped(f, sat, crit, w)
  {
    && Ref(l) < |uw| && Ref(l) < |s1|
    && uw[Ref(l)] == Sum(UnsatTerms(f, sat, w, l)) && s1[Ref(l)] == Sum(Sat1Terms(sat, crit, w, l))
  }

  /** For each variable, how many falsified clauses have it. */
  ghost predicate VarKept(f: Formula, sat: seq<int>, count: seq<int>, v: int)
    requires |f| == |sat|
  {
    0 <= v < |count| && count[v] as real == Sum(CountTerms(f, sat, v))
  }

  ghost predicate Kept(f: Formula, n: nat, sat: seq<int>, crit: seq<int>, w: seq<real>, uw: seq<real>, s1: seq<real>, count: seq<int>) {
    && Shaped(f, sat, crit, w) && |uw| == |s1| == 2 * n && |count| == n
    && (forall l :: IsLit(l, n) ==> LitKept(f, sat, crit, w, uw, s1, l))
    && (forall v :: 1 <= v < n ==> VarKept(f, sat, count, v))
  }

  /** Changing the counters and weight of clause c changes the sums by its share. */
  lemma KeptUpdate(f: Formula, n: nat, sat: seq<int>, crit: seq<int>, w: seq<real>, uw: seq<real>, s1: seq<real>, count: seq<int>,
                   c: nat, s: int, x: int, y: real, uw': seq<real>, s1': seq<real>, count': seq<int>)
    requires Kept(f, n, sat, crit, w, uw, s1, count) && c < |f| && |uw'| == |s1'| == 2 * n && |count'| == n
    requires forall l :: IsLit(l, n) ==> LitMoves(f[c], sat[c], crit[c], w[c], s, x, y, uw, s1, uw', s1', l)
    requires forall v :: 1 <= v < n ==> VarMoves(f[c], sat[c], s, count, count', v)
    ensures Kept(f, n, sat[c := s], crit[c := x], w[c := y], uw', s1', count')
  {
    hide Sum;
    forall l | IsLit(l, n) ensures LitKept(f, sat[c := s], crit[c := x], w[c := y], uw', s1', l) {
      assert LitKept(f, sat, crit, w, uw, s1, l) && LitMoves(f[c], sat[c], crit[c], w[c], s, x, y, uw, s1, uw', s1', l);
      var u, t := UnsatTerms(f, sat, w, l), Sat1Terms(sat, crit, w, l);
      SumUpdate(u, c, UnsatTerm(f[c], s, y, l));
      SumUpdate(t, c, Sat1Term(s, x, y, l));
      assert UnsatTerms(f, sat[c := s], w[c := y], l) == u[c := UnsatTerm(f[c], s, y, l)];
      assert Sat1Terms(sat[c := s], crit[c := x], w[c := y], l) == t[c := Sat1Term(s, x, y, l)];
    }
    var sat' := sat[c := s];
    forall v | 1 <= v < n ensures VarKept(f, sat', count', v) {
      assert VarKept(f, sat, count, v) && VarMoves(f[c], sat[c], s, count, count', v);
      var u := CountTerms(f, sat, v);
      SumUpdate(u, c, CountTerm(f[c], s, v));
      assert CountTerms(f, sat', v) == u[c := CountTerm(f[c], s, v)];
    }
  }

  ghost predicate LitMoves(c: Clause, sat: int, crit: int, w: real, s: int, x: int, y: real,
                           uw: seq<real>, s1: seq<real>, uw': seq<real>, s1': seq<real>, l: int)
  {
    && Ref(l) < |uw| == |uw'| && Ref(l) < |s1| == |s1'|
    && uw'[Ref(l)] == uw[Ref(l)] - UnsatTerm(c, sat, w, l) + UnsatTerm(c, s, y, l)
    && s1'[Ref(l)] == s1[Ref(l)] - Sat1Term(sat, crit, w, l) + Sat1Term(s, x, y, l)
  }

  ghost predicate VarMoves(c: Clause, sat: int, s: int, count: seq<int>, count': seq<int>, v: int) {
    && 0 <= v < |count| == |count'|
    && count'[v] as real == count[v] as real - CountTerm(c, sat, v) + CountTerm(c, s, v)
  }

  /** A variable is counted exactly if it occurs in a falsified clause. */
  lemma CountedVar(f: Formula, sat: seq<int>, count: seq<int>, v: int)
    requires |f| == |sat| && VarKept(f, sat, count, v)
    ensures count[v] >= 0
    ensures count[v] > 0 <==> exists c :: 0 <= c < |f| && sat[c] == 0 && (v in f[c] || -v in f[c])
  {
    var t := CountTerms(f, sat, v);
    SumNonnegative(t);
    if c :| 0 <= c < |f| && sat[c] == 0 && (v in f[c] || -v in f[c]) {
      assert t[c] == 1.0;
    } else {
      SumZero(t);
    }
  }

  // ----- the gain of a flip ----------------------------------------------------------------

  /** The gain of making the false literal t true: the weight of the falsified
      clauses it satisfies, less that of the clauses its negation holds alone. */
  function Gain(uw: seq<real>, s1: seq<real>, t: int): real
    requires Ref(t) < |uw| && Ref(-t) < |s1|
  {
    uw[Ref(t)] - s1[Ref(-t)]
  }

  /** The gain is exactly what the flip takes off the weight of the falsified clauses. */
  lemma GainExact(f: Formula, v: seq<bool>, sat: seq<int>, crit: seq<int>, sat': seq<int>, crit': seq<int>,
                  w: seq<real>, uw: seq<real>, s1: seq<real>, t: int)
    requires IsLit(t, |v|) && !True(v, t) && Counted(f, v, sat, crit) && Counted(f, Flipped(v, Abs(t)), sat', crit')
    requires |w| == |f| && Ref(t) < |uw| && Ref(-t) < |s1|
    requires LitKept(f, sat, crit, w, uw, s1, t) && LitKept(f, sat, crit, w, uw, s1, -t)
    ensures Potential(sat', w) == Potential(sat, w) - Gain(uw, s1, t)
  {
    hide Sum, NumTrue, CritTrue, Normalised;
    var p, q := FalsifiedTerms(sat, w), FalsifiedTerms(sat', w);
    var u, s := UnsatTerms(f, sat, w, t), Sat1Terms(sat, crit, w, -t);
    forall c | 0 <= c < |f| ensures q[c] == p[c] - u[c] + s[c] {
      GainOfClause(f[c], v, sat[c], crit[c], sat'[c], crit'[c], w[c], t);
    }
    SumLinear(p, q, u, s);
  }

  lemma GainOfClause(c: Clause, v: seq<bool>, sat: int, crit: int, sat': int, crit': int, w: real, t: int)
    requires IsLit(t, |v|) && !True(v, t) && CountedAt(c, v, sat, crit) && CountedAt(c, Flipped(v, Abs(t)), sat', crit')
    ensures FalsifiedTerm(sat', w) == FalsifiedTerm(sat, w) - UnsatTerm(c, sat, w, t) + Sat1Term(sat, crit, w, -t)
  {
    FlipTally(c, v, t);
    NoneTrue(c, v);
    if sat == 1 { OneTrue(c, v); }
  }

  /** A literal of a variable that no falsified clause has can only gain by weight below zero:
      its gain is positive exactly if the clauses that its negation holds alone weigh less than nothing. */
  lemma OnlyCountedGain(f: Formula, n: nat, sat: seq<int>, crit: seq<int>, w: seq<real>, uw: seq<real>, s1: seq<real>, count: seq<int>, t: int)
    requires Kept(f, n, sat, crit, w, uw, s1, count) && IsLit(t, n) && count[Abs(t)] == 0
    ensures Ref(t) < |uw| && Ref(-t) < |s1| && Gain(uw, s1, t) == -s1[Ref(-t)] == -Sum(Sat1Terms(sat, crit, w, -t))
    ensures Gain(uw, s1, t) > 0.0 <==> Sum(Sat1Terms(sat, crit, w, -t)) < 0.0
    ensures Nonnegative(w) ==> Gain(uw, s1, t) <= 0.0
  {
    hide Sum;
    assert LitKept(f, sat, crit, w, uw, s1, t) && LitKept(f, sat, crit, w, uw, s1, -t);
    assert VarKept(f, sat, count, Abs(t));
    CountedVar(f, sat, count, Abs(t));
    SumZero(UnsatTerms(f, sat, w, t));
    if Nonnegative(w) { SumNonnegative(Sat1Terms(sat, crit, w, -t)); }
  }

  ghost predicate Nonnegative(w: seq<real>) {
    forall c :: 0 <= c < |w| ==> w[c] >= 0.0
  }

  /** The candidates miss no gain exactly if no literal without candidate has a sum below zero. */
  lemma CandidatesSuffice(f: Formula, n: nat, sat: seq<int>, crit: seq<int>, w: seq<real>, uw: seq<real>, s1: seq<real>, count: seq<int>)
    requires Kept(f, n, sat, crit, w, uw, s1, count)
    ensures (forall t :: Uncounted(t, n, count) ==> !Gains(uw, s1, t)) <==> (forall t :: Uncounted(t, n, count) ==> !BelowZero(s1, -t))
  {
    hide Sum, Gain, Kept;
    forall t | Uncounted(t, n, count) ensures Gains(uw, s1, t) <==> BelowZero(s1, -t) {
      OnlyCountedGain(f, n, sat, crit, w, uw, s1, count, t);
    }
  }

  ghost predicate Uncounted(t: int, n: nat, count: seq<int>) {
    IsLit(t, n) && |count| == n && count[Abs(t)] == 0
  }

  ghost predicate Gains(uw: seq<real>, s1: seq<real>, t: int) {
    Ref(t) < |uw| && Ref(-t) < |s1| && Gain(uw, s1, t) > 0.0
  }

  ghost predicate BelowZero(s1: seq<real>, l: int) {
    Ref(l) < |s1| && s1[Ref(l)] < 0.0
  }

  // ----- moving weight between clauses --------------------------------------------------------

  /** Moving weight leaves the total unchanged, and makes the falsified clauses heavier by it. */
  lemma TransferConserves(sat: seq<int>, w: seq<real>, source: nat, sink: nat, x: real)
    requires |sat| == |w| && source < |w| && sink < |w| && sat[source] > 0 && sat[sink] == 0
    ensures var w' := w[source := w[source] - x][sink := w[sink] + x];
            Sum(w') == Sum(w) && Potential(sat, w') == Potential(sat, w) + x
  {
    hide Sum;
    SumUpdate(w, source, w[source] - x);
    SumUpdate(w[source := w[source] - x], sink, w[sink] + x);
    var w' := w[source := w[source] - x][sink := w[sink] + x];
    var p := FalsifiedTerms(sat, w);
    SumUpdate(p, sink, w[sink] + x);
    assert FalsifiedTerms(sat, w') == p[sink := w[sink] + x];
  }

  /** A transfer keeps all weights from falling below zero exactly if neither side does. */
  lemma TransferNonnegative(w: seq<real>, source: nat, sink: nat, x: real)
    requires source < |w| && sink < |w| && source != sink && Nonnegative(w)
    ensures Nonnegative(w[source := w[source] - x][sink := w[sink] + x]) <==> -w[sink] <= x <= w[source]
  {
    var w' := w[source := w[source] - x][sink := w[sink] + x];
    assert w'[source] == w[source] - x && w'[sink] == w[sink] + x;
  }

  // ----- finitely many flips between transfers ---------------------------------------------

  /** The number of an assignment, read as a binary number. */
  function Code(v: seq<bool>): (r: nat)
    ensures r < Power2(|v|)
  {
    if v == [] then 0 else 2 * Code(v[..|v| - 1]) + if v[|v| - 1] then 1 else 0
  }

  lemma {:induction false} CodeInjective(v: seq<bool>, w: seq<bool>)
    requires |v| == |w| && Code(v) == Code(w)
    ensures v == w
  {
    if v != [] {
      var k := |v| - 1;
      CodeInjective(v[..k], w[..k]);
      assert v == v[..k] + [v[k]] && w == w[..k] + [w[k]];
    }
  }

  ghost function Sats(f: Formula, v: seq<bool>): (r: seq<int>)
    requires AllNormalised(f, |v|)
    ensures |r| == |f|
  {
    seq(|f|, c requires 0 <= c < |f| => assert Normalised(f[c], |v|); NumTrue(f[c], v))
  }

  ghost function Crits(f: Formula, v: seq<bool>): (r: seq<int>)
    requires AllNormalised(f, |v|)
    ensures |r| == |f|
  {
    seq(|f|, c requires 0 <= c < |f| => assert Normalised(f[c], |v|); CritTrue(f[c], v))
  }

  lemma SatsCounted(f: Formula, v: seq<bool>)
    requires AllNormalised(f, |v|)
    ensures Counted(f, v, Sats(f, v), Crits(f, v))
  {
    forall c | 0 <= c < |f| ensures CountedAt(f[c], v, Sats(f, v)[c], Crits(f, v)[c]) { assert Normalised(f[c], |v|); }
  }

  /** The weight of the clauses that an assignment falsifies. */
  ghost function Weigh(f: Formula, v: seq<bool>, w: seq<real>): real
    requires AllNormalised(f, |v|) && |w| == |f|
  {
    Potential(Sats(f, v), w)
  }

  /** Each assignment of the path has a lower weight than all before it. */
  ghost predicate Descending(f: Formula, w: seq<real>, n: nat, path: seq<seq<bool>>) {
    && AllNormalised(f, n) && |w| == |f| && (forall i :: 0 <= i < |path| ==> |path[i]| == n)
    && forall i, j :: 0 <= i < j < |path| ==> Weigh(f, path[i], w) > Weigh(f, path[j], w)
  }

  lemma DescendingNext(f: Formula, w: seq<real>, n: nat, path: seq<seq<bool>>, v: seq<bool>)
    requires Descending(f, w, n, path) && path != [] && |v| == n
    requires Weigh(f, v, w) < Weigh(f, path[|path| - 1], w)
    ensures Descending(f, w, n, path + [v])
  {
    hide Weigh, AllNormalised;
    var q := path + [v];
    forall i, j | 0 <= i < j < |q| ensures Weigh(f, q[i], w) > Weigh(f, q[j], w) {
      if j == |path| && i < |path| - 1 { assert Weigh(f, path[i], w) > Weigh(f, path[|path| - 1], w); }
    }
  }

  /** Assignments of strictly decreasing weight never repeat, so there are at most 2^n of them. */
  lemma DescentBounded(f: Formula, w: seq<real>, n: nat, path: seq<seq<bool>>)
    requires Descending(f, w, n, path)
    ensures |path| <= Power2(n)
  {
    hide Weigh, AllNormalised;
    var codes := seq(|path|, i requires 0 <= i < |path| => Code(path[i]));
    forall i, j | 0 <= i < j < |path| ensures codes[i] != codes[j] {
      assert Weigh(f, path[i], w) > Weigh(f, path[j], w);
      if codes[i] == codes[j] { CodeInjective(path[i], path[j]); }
    }
    Pigeonhole(codes, Power2(n));
  }

  lemma CountedSats(f: Formula, v: seq<bool>, sat: seq<int>, crit: seq<int>)
    requires Counted(f, v, sat, crit)
    ensures sat == Sats(f, v)
  {
    forall c | 0 <= c < |f| ensures sat[c] == Sats(f, v)[c] { assert CountedAt(f[c], v, sat[c], crit[c]); }
  }

  /** Before any clause is counted all sums are zero. */
  lemma KeptNothing(f: Formula, n: nat, sat: seq<int>, crit: seq<int>, w: seq<real>, uw: seq<real>, s1: seq<real>, count: seq<int>)
    requires Shaped(f, sat, crit, w) && |uw| == |s1| == 2 * n && |count| == n
    requires forall c :: 0 <= c < |f| ==> sat[c] == -1
    requires forall i :: 0 <= i < 2 * n ==> uw[i] == s1[i] == 0.0
    requires forall v :: 0 <= v < n ==> count[v] == 0
    ensures Kept(f, n, sat, crit, w, uw, s1, count)
  {
    forall l | IsLit(l, n) ensures LitKept(f, sat, crit, w, uw, s1, l) {
      SumZero(UnsatTerms(f, sat, w, l));
      SumZero(Sat1Terms(sat, crit, w, l));
    }
    forall v | 1 <= v < n ensures VarKept(f, sat, count, v) {
      SumZero(CountTerms(f, sat, v));
    }
  }

  /** A satisfied clause gives away weight: only the literal that holds it alone notices. */
  lemma Relieve(f: Formula, n: nat, sat: seq<int>, crit: seq<int>, w: seq<real>, uw: seq<real>, s1: seq<real>, count: seq<int>,
                c: nat, x: real, s1': seq<real>)
    requires Kept(f, n, sat, crit, w, uw, s1, count) && c < |f| && sat[c] > 0 && |s1'| == 2 * n
    requires forall l :: IsLit(l, n) ==> s1'[Ref(l)] == s1[Ref(l)] - if sat[c] == 1 && crit[c] == l then x else 0.0
    ensures Kept(f, n, sat, crit, w[c := w[c] - x], uw, s1', count)
  {
    forall l | IsLit(l, n) ensures LitMoves(f[c], sat[c], crit[c], w[c], sat[c], crit[c], w[c] - x, uw, s1, uw, s1', l) {
      assert LitKept(f, sat, crit, w, uw, s1, l);
    }
    forall v | 1 <= v < n ensures VarMoves(f[c], sat[c], sat[c], count, count, v) {
      assert VarKept(f, sat, count, v);
    }
    KeptUpdate(f, n, sat, crit, w, uw, s1, count, c, sat[c], crit[c], w[c] - x, uw, s1', count);
    assert sat[c := sat[c]] == sat && crit[c := crit[c]] == crit;
  }

  /** A falsified clause receives weight: its literals notice. */
  lemma Burden(f: Formula, n: nat, sat: seq<int>, crit: seq<int>, w: seq<real>, uw: seq<real>, s1: seq<real>, count: seq<int>,
               c: nat, x: real, uw': seq<real>)
    requires Kept(f, n, sat, crit, w, uw, s1, count) && c < |f| && sat[c] == 0 && |uw'| == 2 * n
    requires forall l :: IsLit(l, n) ==> uw'[Ref(l)] == uw[Ref(l)] + if l in f[c] then x else 0.0
    ensures Kept(f, n, sat, crit, w[c := w[c] + x], uw', s1, count)
  {
    forall l | IsLit(l, n) ensures LitMoves(f[c], sat[c], crit[c], w[c], sat[c], crit[c], w[c] + x, uw, s1, uw', s1, l) {
      assert LitKept(f, sat, crit, w, uw, s1, l);
    }
    forall v | 1 <= v < n ensures VarMoves(f[c], sat[c], sat[c], count, count, v) {
      assert VarKept(f, sat, count, v);
    }
    KeptUpdate(f, n, sat, crit, w, uw, s1, count, c, sat[c], crit[c], w[c] + x, uw', s1, count);
    assert sat[c := sat[c]] == sat && crit[c := crit[c]] == crit;
  }
}
