/** Bounded model checking: gates become clauses, the simplified clauses are
    renumbered and copied once for every time step. */
module Unroll {
  import opened Cnf
  import opened Circuit

  // ----- the untimed encoding -----------------------------------------------------

  /** The untimed solver literal of a circuit literal. */
  function Prep(u: nat): (r: int)
    ensures r != 0 && Abs(r) == Var(u) + 1
  {
    if u % 2 == 0 then Var(u) + 1 else -(Var(u) + 1)
  }

  function AndGate(lhs: int, rhs0: int, rhs1: int): Formula {
    [[-lhs, rhs0], [-lhs, rhs1], [-rhs0, -rhs1, lhs]]
  }

  ghost function AndClauses(c: Aiger, s: iset<int>, n: nat): Formula
    requires n <= |c.ands|
  {
    if n == 0 then [] else
      var a := c.ands[n - 1];
      AndClauses(c, s, n - 1) + if Var(a.lhs) in s then AndGate(Prep(a.lhs), Prep(a.rhs0), Prep(a.rhs1)) else []
  }

  ghost function Logic(c: Aiger, s: iset<int>): Formula {
    (if 0 in s then [[-1]] else []) + AndClauses(c, s, |c.ands|)
  }

  /** The circuit variables that an assignment of the untimed variables makes true. */
  ghost function Lower(a: Assignment): Valuation {
    iset v: int | NextIn(a, v)
  }

  ghost predicate NextIn(a: Assignment, v: int) { v + 1 in a }

  ghost predicate PreviousIn(w: Valuation, x: int) { x - 1 in w }

  ghost function Lift(w: Valuation): Assignment {
    iset x: int | PreviousIn(w, x)
  }

  lemma LiftLowers(w: Valuation)
    ensures Lower(Lift(w)) == w
  {
    forall v: int ensures v in Lower(Lift(w)) <==> v in w { assert NextIn(Lift(w), v) <==> PreviousIn(w, v + 1); }
  }

  lemma PrepHolds(a: Assignment, u: nat)
    ensures Holds(a, Prep(u)) <==> True(Lower(a), u)
    ensures Holds(a, -Prep(u)) <==> !True(Lower(a), u)
  {}

  lemma ModelsConcat(a: Assignment, f: Formula, g: Formula)
    ensures Models(a, f + g) <==> Models(a, f) && Models(a, g)
  {
    if Models(a, f + g) {
      forall i | 0 <= i < |f| ensures Satisfies(a, f[i]) { assert f[i] == (f + g)[i]; }
      forall i | 0 <= i < |g| ensures Satisfies(a, g[i]) { assert g[i] == (f + g)[|f| + i]; }
    }
  }

  lemma SatisfiesTwo(a: Assignment, x: int, y: int)
    ensures Satisfies(a, [x, y]) <==> Holds(a, x) || Holds(a, y)
  {
    assert x in [x, y] && y in [x, y];
  }

  lemma AndGateMeans(a: Assignment, g: And)
    requires g.lhs % 2 == 0
    ensures Models(a, AndGate(Prep(g.lhs), Prep(g.rhs0), Prep(g.rhs1))) <==> GateHolds(Lower(a), g)
  {
    var l, r0, r1 := Prep(g.lhs), Prep(g.rhs0), Prep(g.rhs1);
    PrepHolds(a, g.lhs); PrepHolds(a, g.rhs0); PrepHolds(a, g.rhs1);
    SatisfiesTwo(a, -l, r0);
    SatisfiesTwo(a, -l, r1);
    var f := AndGate(l, r0, r1);
    assert f[0] == [-l, r0] && f[1] == [-l, r1] && f[2] == [-r0, -r1, l];
    assert Satisfies(a, f[2]) <==> Holds(a, -r0) || Holds(a, -r1) || Holds(a, l) by {
      assert -r0 in f[2] && -r1 in f[2] && l in f[2];
    }
    assert Models(a, f) <==> Satisfies(a, f[0]) && Satisfies(a, f[1]) && Satisfies(a, f[2]);
  }

  lemma {:induction false} AndClausesMean(c: Aiger, s: iset<int>, a: Assignment, n: nat)
    requires n <= |c.ands| && forall i :: 0 <= i < |c.ands| ==> c.ands[i].lhs % 2 == 0
    ensures Models(a, AndClauses(c, s, n)) <==>
            forall i :: 0 <= i < n && Var(c.ands[i].lhs) in s ==> GateHolds(Lower(a), c.ands[i])
  {
    if n > 0 {
      AndClausesMean(c, s, a, n - 1);
      var g := c.ands[n - 1];
      AndGateMeans(a, g);
      var f := if Var(g.lhs) in s then AndGate(Prep(g.lhs), Prep(g.rhs0), Prep(g.rhs1)) else [];
      ModelsConcat(a, AndClauses(c, s, n - 1), f);
    }
  }

  /** The clauses describe the constant and the gates of s, and nothing else. */
  lemma LogicMeans(c: Aiger, s: iset<int>, a: Assignment)
    requires forall i :: 0 <= i < |c.ands| ==> c.ands[i].lhs % 2 == 0
    ensures Models(a, Logic(c, s)) <==> Settled(c, s, Lower(a))
  {
    AndClausesMean(c, s, a, |c.ands|);
    var f: Formula := if 0 in s then [[-1]] else [];
    ModelsConcat(a, f, AndClauses(c, s, |c.ands|));
    assert NextIn(a, 0) <==> 0 in Lower(a);
    assert Satisfies(a, [-1]) <==> Holds(a, -1) by { assert -1 in [-1]; }
  }

  // ----- simplification, a contract ---------------------------------------------------

  /** The untimed variables that simplification must not touch. */
  ghost predicate Frozen(c: Aiger, s: iset<int>, withWitness: bool, x: int) {
    || x == Abs(Prep(c.bad))
    || (exists i :: 0 <= i < |c.latches| && Var(c.latches[i].lit) in s && (x == Abs(Prep(c.latches[i].lit)) || x == Abs(Prep(c.latches[i].next))))
    || (0 in s && x == 1)
    || (withWitness && exists i :: 0 <= i < |c.inputs| && Var(c.inputs[i]) in s && x == Abs(Prep(c.inputs[i])))
  }

  ghost predicate Agree(c: Aiger, s: iset<int>, withWitness: bool, a: Assignment, b: Assignment) {
    forall x :: Frozen(c, s, withWitness, x) ==> (x in a <==> x in b)
  }

  /** The clauses g have the same models as the logic, as far as frozen variables show. */
  ghost predicate Simplified(c: Aiger, s: iset<int>, withWitness: bool, g: Formula) {
    && (forall i, j :: 0 <= i < |g| && 0 <= j < |g[i]| ==> 1 <= Abs(g[i][j]) <= c.maxvar + 1)
    && (forall a :: Models(a, Logic(c, s)) ==> exists b :: Agree(c, s, withWitness, a, b) && Models(b, g))
    && (forall b :: Models(b, g) ==> exists a :: Agree(c, s, withWitness, a, b) && Models(a, Logic(c, s)))
  }

  /** If the logic forces the bad literal to be false, it is never reached. */
  lemma FixedNever(c: Aiger, rank: seq<nat>, s: iset<int>, k: nat)
    requires WellFormed(c, rank) && Closed(c, s) && Var(c.bad) in s
    requires Entails(Logic(c, s), -Prep(c.bad))
    ensures !BadAt(c, Everything(c), k)
  {
    ClosedSuffices(c, rank, s, k);
    if BadAt(c, s, k) {
      var ws :| |ws| == k + 1 && Run(c, s, ws) && True(ws[k], c.bad);
      LiftLowers(ws[k]);
      forall i | 0 <= i < |c.ands| ensures c.ands[i].lhs % 2 == 0 { assert Gate(c, rank, c.ands[i]); }
      LogicMeans(c, s, Lift(ws[k]));
      PrepHolds(Lift(ws[k]), c.bad);
      assert false;
    }
  }

  /** Without latches every time step is like the first. */
  lemma NoLatches(c: Aiger, s: iset<int>, k: nat)
    requires c.latches == []
    ensures BadAt(c, s, k) <==> BadAt(c, s, 0)
  {
    if BadAt(c, s, k) {
      var ws :| |ws| == k + 1 && Run(c, s, ws) && True(ws[k], c.bad);
      assert Run(c, s, [ws[k]]);
    }
    if BadAt(c, s, 0) {
      var ws :| |ws| == 1 && Run(c, s, ws) && True(ws[0], c.bad);
      assert Run(c, s, seq(k + 1, t => ws[0]));
    }
  }

  // ----- renumbering and time ------------------------------------------------------------

  /** Mapped variables are numbered from 1 to m, no two alike; 0 is not mapped. */
  ghost predicate Mapping(litmap: seq<int>, m: nat) {
    && (forall x :: 0 <= x < |litmap| ==> 0 <= litmap[x] <= m)
    && (forall x, y :: 0 <= x < y < |litmap| && litmap[x] == litmap[y] ==> litmap[x] == 0)
  }

  function MapLit(litmap: seq<int>, lit: int): int
    requires Abs(lit) < |litmap|
  {
    if lit < 0 then -litmap[-lit] else litmap[lit]
  }

  ghost predicate Mapped(litmap: seq<int>, lit: int) {
    0 < Abs(lit) < |litmap| && litmap[Abs(lit)] != 0
  }

  ghost predicate AllMapped(litmap: seq<int>, g: Formula) {
    forall i :: 0 <= i < |g| ==> ClauseMapped(litmap, g[i])
  }

  ghost predicate ClauseMapped(litmap: seq<int>, c: Clause) {
    forall j :: 0 <= j < |c| ==> Mapped(litmap, c[j])
  }

  /** The copy of a renumbered literal for one time step. */
  function Shift(m: nat, ilit: int, time: nat): int {
    if ilit < 0 then -(-ilit + time * m) else ilit + time * m
  }

  lemma SameDistance(m: nat, x: int, y: int, t: nat, u: nat)
    requires x != 0 && y != 0 && Shift(m, x, t) == Shift(m, y, u)
    ensures Abs(x) + t * m == Abs(y) + u * m && (x < 0 <==> y < 0)
  {
    assert t * m >= 0 && u * m >= 0;
  }

  /** Different variables, or different times, give different copies. */
  lemma ShiftInjective(m: nat, x: int, y: int, t: nat, u: nat)
    requires 1 <= Abs(x) <= m && 1 <= Abs(y) <= m && Shift(m, x, t) == Shift(m, y, u)
    ensures x == y && t == u
  {
    var a, b := Abs(x), Abs(y);
    SameDistance(m, x, y, t, u);
    if t < u { LaterIsLarger(m, t, u); }
    if u < t { LaterIsLarger(m, u, t); }
    assert a == b;
  }

  lemma {:induction false} LaterIsLarger(m: nat, t: nat, u: nat)
    requires t < u
    ensures t * m + m <= u * m
    decreases u - t
  {
    OneMoreTime(m, u - 1);
    if t < u - 1 { LaterIsLarger(m, t, u - 1); }
  }

  lemma OneMoreTime(m: nat, t: nat)
    ensures (t + 1) * m == t * m + m
  {}

  function Timed(litmap: seq<int>, m: nat, lit: int, time: nat): int
    requires Abs(lit) < |litmap|
  {
    Shift(m, MapLit(litmap, lit), time)
  }

  /** What the timed variables say about the untimed ones at one time. */
  ghost function Slice(a: Assignment, litmap: seq<int>, m: nat, time: nat): Assignment {
    iset x: int | InSlice(a, litmap, m, time, x)
  }

  ghost predicate InSlice(a: Assignment, litmap: seq<int>, m: nat, time: nat, x: int) {
    0 < x < |litmap| && litmap[x] != 0 && Timed(litmap, m, x, time) in a
  }

  lemma SliceHolds(a: Assignment, litmap: seq<int>, m: nat, time: nat, lit: int)
    requires Mapping(litmap, m) && Mapped(litmap, lit)
    ensures Holds(Slice(a, litmap, m, time), lit) <==> Holds(a, Timed(litmap, m, lit, time))
  {
    var x := Abs(lit);
    assert time * m >= 0;
    assert x in Slice(a, litmap, m, time) <==> InSlice(a, litmap, m, time, x);
  }

  ghost function TimedClause(litmap: seq<int>, m: nat, c: Clause, time: nat): (r: Clause)
    requires ClauseMapped(litmap, c)
    ensures |r| == |c|
  {
    seq(|c|, j requires 0 <= j < |c| => Timed(litmap, m, c[j], time))
  }

  ghost function TimedClauses(litmap: seq<int>, m: nat, g: Formula, time: nat): (r: Formula)
    requires AllMapped(litmap, g)
    ensures |r| == |g|
  {
    seq(|g|, i requires 0 <= i < |g| => TimedClause(litmap, m, g[i], time))
  }

  lemma TimedClauseMeans(a: Assignment, litmap: seq<int>, m: nat, c: Clause, time: nat)
    requires Mapping(litmap, m) && ClauseMapped(litmap, c)
    ensures Satisfies(a, TimedClause(litmap, m, c, time)) <==> Satisfies(Slice(a, litmap, m, time), c)
  {
    var r, b := TimedClause(litmap, m, c, time), Slice(a, litmap, m, time);
    if Satisfies(b, c) {
      var l :| l in c && Holds(b, l);
      var j :| 0 <= j < |c| && c[j] == l;
      SliceHolds(a, litmap, m, time, c[j]);
      assert r[j] in r;
    }
    if Satisfies(a, r) {
      var l :| l in r && Holds(a, l);
      var j :| 0 <= j < |r| && r[j] == l;
      SliceHolds(a, litmap, m, time, c[j]);
      assert c[j] in c;
    }
  }

  lemma TimedClausesMean(a: Assignment, litmap: seq<int>, m: nat, g: Formula, time: nat)
    requires Mapping(litmap, m) && AllMapped(litmap, g)
    ensures Models(a, TimedClauses(litmap, m, g, time)) <==> Models(Slice(a, litmap, m, time), g)
  {
    forall i | 0 <= i < |g|
      ensures Satisfies(a, TimedClauses(litmap, m, g, time)[i]) <==> Satisfies(Slice(a, litmap, m, time), g[i])
    {
      TimedClauseMeans(a, litmap, m, g[i], time);
    }
  }

  /** Puts together one assignment for each time. */
  ghost function Weave(bs: seq<Assignment>, litmap: seq<int>, m: nat): Assignment {
    iset y: int | Woven(bs, litmap, m, y)
  }

  ghost predicate Woven(bs: seq<Assignment>, litmap: seq<int>, m: nat, y: int) {
    exists t, x :: 0 <= t < |bs| && WovenAt(bs[t], litmap, m, t, x, y)
  }

  ghost predicate WovenAt(b: Assignment, litmap: seq<int>, m: nat, t: nat, x: int, y: int) {
    0 < x < |litmap| && litmap[x] != 0 && y == Timed(litmap, m, x, t) && x in b
  }

  lemma WeaveSlices(bs: seq<Assignment>, litmap: seq<int>, m: nat, t: nat, x: int)
    requires Mapping(litmap, m) && t < |bs| && 0 < x < |litmap| && litmap[x] != 0
    ensures x in Slice(Weave(bs, litmap, m), litmap, m, t) <==> x in bs[t]
  {
    var y := Timed(litmap, m, x, t);
    if x in bs[t] { assert WovenAt(bs[t], litmap, m, t, x, y); }
    if Woven(bs, litmap, m, y) {
      var u, z :| 0 <= u < |bs| && WovenAt(bs[u], litmap, m, u, z, y);
      ShiftInjective(m, litmap[x], litmap[z], t, u);
    }
    assert y in Weave(bs, litmap, m) <==> Woven(bs, litmap, m, y);
    assert x in Slice(Weave(bs, litmap, m), litmap, m, t) <==> InSlice(Weave(bs, litmap, m), litmap, m, t, x);
  }

  // ----- the clauses for times 0 to k -------------------------------------------------------

  ghost predicate LatchesMapped(c: Aiger, s: iset<int>, litmap: seq<int>) {
    forall i :: 0 <= i < |c.latches| && Var(c.latches[i].lit) in s ==>
      Mapped(litmap, Prep(c.latches[i].lit)) && Mapped(litmap, Prep(c.latches[i].next))
  }

  function Equiv(a: int, b: int): Formula { [[-a, b], [a, -b]] }

  /** Each latch has the value its input had one step before. */
  ghost function Equivs(c: Aiger, s: iset<int>, litmap: seq<int>, m: nat, time: nat, n: nat): Formula
    requires time > 0 && n <= |c.latches| && LatchesMapped(c, s, litmap)
  {
    if n == 0 then [] else
      var l := c.latches[n - 1];
      Equivs(c, s, litmap, m, time, n - 1)
      + if Var(l.lit) in s then Equiv(Timed(litmap, m, Prep(l.next), time - 1), Timed(litmap, m, Prep(l.lit), time)) else []
  }

  /** The reset values of the first n latches; a latch may be uninitialised. */
  ghost function Resets(c: Aiger, s: iset<int>, litmap: seq<int>, n: nat): Formula
    requires n <= |c.latches| && LatchesMapped(c, s, litmap)
  {
    if n == 0 then [] else
      var l := c.latches[n - 1];
      Resets(c, s, litmap, n - 1)
      + if Var(l.lit) !in s then [] else if l.reset == 0 then [[-MapLit(litmap, Prep(l.lit))]]
        else if l.reset == 1 then [[MapLit(litmap, Prep(l.lit))]] else []
  }

  ghost function StepClauses(c: Aiger, s: iset<int>, litmap: seq<int>, m: nat, g: Formula, time: nat): Formula
    requires LatchesMapped(c, s, litmap) && AllMapped(litmap, g)
  {
    (if time > 0 then Equivs(c, s, litmap, m, time, |c.latches|) else []) + TimedClauses(litmap, m, g, time)
  }

  ghost function Unrolled(c: Aiger, s: iset<int>, litmap: seq<int>, m: nat, g: Formula, k: nat): Formula
    requires LatchesMapped(c, s, litmap) && AllMapped(litmap, g)
  {
    (if k == 0 then Resets(c, s, litmap, |c.latches|) else Unrolled(c, s, litmap, m, g, k - 1)) + StepClauses(c, s, litmap, m, g, k)
  }

  lemma SatisfiesOne(a: Assignment, x: int)
    ensures Satisfies(a, [x]) <==> Holds(a, x)
  {
    assert x in [x];
  }

  lemma EquivMeans(a: Assignment, x: int, y: int)
    requires x != 0 && y != 0
    ensures Models(a, Equiv(x, y)) <==> (Holds(a, x) <==> Holds(a, y))
  {
    SatisfiesTwo(a, -x, y);
    SatisfiesTwo(a, x, -y);
    var f := Equiv(x, y);
    assert f[0] == [-x, y] && f[1] == [x, -y];
    assert Models(a, f) <==> Satisfies(a, f[0]) && Satisfies(a, f[1]);
  }

  lemma TimedNonzero(litmap: seq<int>, m: nat, lit: int, time: nat)
    requires Mapping(litmap, m) && Mapped(litmap, lit)
    ensures Timed(litmap, m, lit, time) != 0 && MapLit(litmap, lit) == Timed(litmap, m, lit, 0)
  {
    assert time * m >= 0;
  }

  lemma {:induction false} EquivsMean(a: Assignment, c: Aiger, s: iset<int>, litmap: seq<int>, m: nat, time: nat, n: nat)
    requires time > 0 && n <= |c.latches| && LatchesMapped(c, s, litmap) && Mapping(litmap, m)
    requires forall i :: 0 <= i < |c.latches| ==> c.latches[i].lit % 2 == 0
    ensures Models(a, Equivs(c, s, litmap, m, time, n)) <==>
            forall i :: 0 <= i < n && Var(c.latches[i].lit) in s ==>
              LatchSteps(Lower(Slice(a, litmap, m, time - 1)), Lower(Slice(a, litmap, m, time)), c.latches[i])
  {
    if n > 0 {
      EquivsMean(a, c, s, litmap, m, time, n - 1);
      var l := c.latches[n - 1];
      if Var(l.lit) in s {
        var prev, lit := Timed(litmap, m, Prep(l.next), time - 1), Timed(litmap, m, Prep(l.lit), time);
        LatchClauses(a, litmap, m, time, l);
        ModelsConcat(a, Equivs(c, s, litmap, m, time, n - 1), Equiv(prev, lit));
      } else {
        ModelsConcat(a, Equivs(c, s, litmap, m, time, n - 1), []);
      }
    }
  }

  lemma LatchClauses(a: Assignment, litmap: seq<int>, m: nat, time: nat, l: Latch)
    requires time > 0 && Mapping(litmap, m) && Mapped(litmap, Prep(l.lit)) && Mapped(litmap, Prep(l.next)) && l.lit % 2 == 0
    ensures Models(a, Equiv(Timed(litmap, m, Prep(l.next), time - 1), Timed(litmap, m, Prep(l.lit), time))) <==>
            LatchSteps(Lower(Slice(a, litmap, m, time - 1)), Lower(Slice(a, litmap, m, time)), l)
  {
    var prev, lit := Timed(litmap, m, Prep(l.next), time - 1), Timed(litmap, m, Prep(l.lit), time);
    TimedNonzero(litmap, m, Prep(l.next), time - 1);
    TimedNonzero(litmap, m, Prep(l.lit), time);
    EquivMeans(a, prev, lit);
    SliceHolds(a, litmap, m, time - 1, Prep(l.next));
    SliceHolds(a, litmap, m, time, Prep(l.lit));
    PrepHolds(Slice(a, litmap, m, time - 1), l.next);
    PrepHolds(Slice(a, litmap, m, time), l.lit);
  }

  lemma {:induction false} ResetsMean(a: Assignment, c: Aiger, s: iset<int>, litmap: seq<int>, m: nat, n: nat)
    requires n <= |c.latches| && LatchesMapped(c, s, litmap) && Mapping(litmap, m)
    requires forall i :: 0 <= i < |c.latches| ==> c.latches[i].lit % 2 == 0
    ensures Models(a, Resets(c, s, litmap, n)) <==>
            forall i :: 0 <= i < n && Var(c.latches[i].lit) in s ==> LatchStarts(Lower(Slice(a, litmap, m, 0)), c.latches[i])
  {
    if n > 0 {
      ResetsMean(a, c, s, litmap, m, n - 1);
      var l := c.latches[n - 1];
      var f := if Var(l.lit) !in s then [] else if l.reset == 0 then [[-MapLit(litmap, Prep(l.lit))]]
               else if l.reset == 1 then [[MapLit(litmap, Prep(l.lit))]] else [];
      if Var(l.lit) in s { ResetClauses(a, litmap, m, l); }
      ModelsConcat(a, Resets(c, s, litmap, n - 1), f);
    }
  }

  lemma ResetClauses(a: Assignment, litmap: seq<int>, m: nat, l: Latch)
    requires Mapping(litmap, m) && Mapped(litmap, Prep(l.lit)) && l.lit % 2 == 0
    ensures var lit := MapLit(litmap, Prep(l.lit));
            && (Models(a, [[lit]]) <==> Var(l.lit) in Lower(Slice(a, litmap, m, 0)))
            && (Models(a, [[-lit]]) <==> Var(l.lit) !in Lower(Slice(a, litmap, m, 0)))
  {
    var lit := MapLit(litmap, Prep(l.lit));
    TimedNonzero(litmap, m, Prep(l.lit), 0);
    SatisfiesOne(a, lit);
    SatisfiesOne(a, -lit);
    assert Models(a, [[lit]]) <==> Satisfies(a, [[lit]][0]);
    assert Models(a, [[-lit]]) <==> Satisfies(a, [[-lit]][0]);
    SliceHolds(a, litmap, m, 0, Prep(l.lit));
    PrepHolds(Slice(a, litmap, m, 0), l.lit);
  }

  // ----- what they mean ---------------------------------------------------------------------

  /** One assignment per time satisfies the clauses, and the latches link them. */
  ghost predicate Copies(c: Aiger, s: iset<int>, g: Formula, bs: seq<Assignment>) {
    && (forall t :: 0 <= t < |bs| ==> Models(bs[t], g))
    && (forall t :: 0 < t < |bs| ==> Steps(c, s, Lower(bs[t - 1]), Lower(bs[t])))
    && (|bs| > 0 ==> Starts(c, s, Lower(bs[0])))
  }

  ghost function Slices(a: Assignment, litmap: seq<int>, m: nat, k: nat): (r: seq<Assignment>)
    ensures |r| == k + 1
  {
    seq(k + 1, t requires 0 <= t <= k => Slice(a, litmap, m, t))
  }

  lemma {:induction false} UnrolledMeans(a: Assignment, c: Aiger, s: iset<int>, litmap: seq<int>, m: nat, g: Formula, k: nat)
    requires LatchesMapped(c, s, litmap) && AllMapped(litmap, g) && Mapping(litmap, m)
    requires forall i :: 0 <= i < |c.latches| ==> c.latches[i].lit % 2 == 0
    ensures Models(a, Unrolled(c, s, litmap, m, g, k)) <==> Copies(c, s, g, Slices(a, litmap, m, k))
  {
    var bs := Slices(a, litmap, m, k);
    TimedClausesMean(a, litmap, m, g, k);
    if k > 0 {
      UnrolledMeans(a, c, s, litmap, m, g, k - 1);
      EquivsMean(a, c, s, litmap, m, k, |c.latches|);
      ModelsConcat(a, Equivs(c, s, litmap, m, k, |c.latches|), TimedClauses(litmap, m, g, k));
      ModelsConcat(a, Unrolled(c, s, litmap, m, g, k - 1), StepClauses(c, s, litmap, m, g, k));
      CopiesNext(c, s, g, Slices(a, litmap, m, k - 1), bs[k]);
      assert bs == Slices(a, litmap, m, k - 1) + [bs[k]];
    } else {
      ResetsMean(a, c, s, litmap, m, |c.latches|);
      ModelsConcat(a, [], TimedClauses(litmap, m, g, k));
      ModelsConcat(a, Resets(c, s, litmap, |c.latches|), StepClauses(c, s, litmap, m, g, k));
    }
  }

  lemma CopiesNext(c: Aiger, s: iset<int>, g: Formula, bs: seq<Assignment>, b: Assignment)
    requires |bs| > 0
    ensures Copies(c, s, g, bs + [b]) <==>
            Copies(c, s, g, bs) && Models(b, g) && Steps(c, s, Lower(bs[|bs| - 1]), Lower(b))
  {
    var t := bs + [b];
    if Copies(c, s, g, t) {
      forall i | 0 <= i < |bs| ensures Models(bs[i], g) { assert t[i] == bs[i]; }
      forall i | 0 < i < |bs| ensures Steps(c, s, Lower(bs[i - 1]), Lower(bs[i])) {
        assert Steps(c, s, Lower(t[i - 1]), Lower(t[i]));
      }
      assert Models(t[|bs|], g) && Steps(c, s, Lower(t[|bs| - 1]), Lower(t[|bs|]));
    }
  }

  /** Variables that are frozen have the same value in both, as circuit variables too. */
  lemma AgreeLowers(c: Aiger, s: iset<int>, withWitness: bool, a: Assignment, b: Assignment)
    requires Agree(c, s, withWitness, a, b)
    ensures True(Lower(a), c.bad) <==> True(Lower(b), c.bad)
    ensures forall i :: 0 <= i < |c.latches| && Var(c.latches[i].lit) in s ==>
              && (Var(c.latches[i].lit) in Lower(a) <==> Var(c.latches[i].lit) in Lower(b))
              && (True(Lower(a), c.latches[i].next) <==> True(Lower(b), c.latches[i].next))
  {
    SameVar(c, s, withWitness, a, b, c.bad);
    forall i | 0 <= i < |c.latches| && Var(c.latches[i].lit) in s
      ensures Var(c.latches[i].lit) in Lower(a) <==> Var(c.latches[i].lit) in Lower(b)
      ensures True(Lower(a), c.latches[i].next) <==> True(Lower(b), c.latches[i].next)
    {
      SameVar(c, s, withWitness, a, b, c.latches[i].lit);
      SameVar(c, s, withWitness, a, b, c.latches[i].next);
    }
  }

  lemma SameVar(c: Aiger, s: iset<int>, withWitness: bool, a: Assignment, b: Assignment, u: nat)
    requires Agree(c, s, withWitness, a, b) && Frozen(c, s, withWitness, Abs(Prep(u)))
    ensures Var(u) in Lower(a) <==> Var(u) in Lower(b)
    ensures True(Lower(a), u) <==> True(Lower(b), u)
  {
    assert NextIn(a, Var(u)) <==> Abs(Prep(u)) in a;
    assert NextIn(b, Var(u)) <==> Abs(Prep(u)) in b;
  }

  lemma AgreeLinks(c: Aiger, s: iset<int>, withWitness: bool, a0: Assignment, a1: Assignment, b0: Assignment, b1: Assignment)
    requires Agree(c, s, withWitness, a0, b0) && Agree(c, s, withWitness, a1, b1)
    ensures Steps(c, s, Lower(a0), Lower(a1)) <==> Steps(c, s, Lower(b0), Lower(b1))
    ensures Starts(c, s, Lower(a0)) <==> Starts(c, s, Lower(b0))
  {
    AgreeLowers(c, s, withWitness, a0, b0);
    AgreeLowers(c, s, withWitness, a1, b1);
  }

  /** An assignment of the logic that looks like b, and the other way around. */
  ghost function LogicOf(c: Aiger, s: iset<int>, withWitness: bool, g: Formula, b: Assignment): (a: Assignment)
    requires Simplified(c, s, withWitness, g) && Models(b, g)
    ensures Agree(c, s, withWitness, a, b) && Models(a, Logic(c, s))
  {
    var a :| Agree(c, s, withWitness, a, b) && Models(a, Logic(c, s));
    a
  }

  ghost function ClausesOf(c: Aiger, s: iset<int>, withWitness: bool, g: Formula, a: Assignment): (b: Assignment)
    requires Simplified(c, s, withWitness, g) && Models(a, Logic(c, s))
    ensures Agree(c, s, withWitness, a, b) && Models(b, g)
  {
    var b :| Agree(c, s, withWitness, a, b) && Models(b, g);
    b
  }

  lemma AndsEven(c: Aiger, rank: seq<nat>)
    requires WellFormed(c, rank)
    ensures forall i :: 0 <= i < |c.ands| ==> c.ands[i].lhs % 2 == 0
    ensures forall i :: 0 <= i < |c.latches| ==> c.latches[i].lit % 2 == 0
    ensures Var(c.bad) <= c.maxvar
  {
    forall i | 0 <= i < |c.ands| ensures c.ands[i].lhs % 2 == 0 { assert Gate(c, rank, c.ands[i]); }
  }

  /** Assignments of the logic and of the clauses that agree make runs of each other. */
  lemma RunsAgree(c: Aiger, rank: seq<nat>, s: iset<int>, withWitness: bool, g: Formula, vs: seq<Assignment>, bs: seq<Assignment>, ws: seq<Valuation>)
    requires WellFormed(c, rank) && |vs| == |bs| == |ws|
    requires forall t :: 0 <= t < |bs| ==> Agree(c, s, withWitness, vs[t], bs[t]) && ws[t] == Lower(vs[t])
    requires forall t :: 0 <= t < |bs| ==> Models(vs[t], Logic(c, s)) && Models(bs[t], g)
    ensures Run(c, s, ws) <==> Copies(c, s, g, bs)
    ensures forall t :: 0 <= t < |bs| ==> (True(ws[t], c.bad) <==> Holds(bs[t], Prep(c.bad)))
  {
    hide WellFormed, Agree, Models, Settled, Steps, Starts, Lower, True, Holds;
    AndsEven(c, rank);
    forall t | 0 <= t < |bs| ensures Settled(c, s, ws[t]) && (True(ws[t], c.bad) <==> Holds(bs[t], Prep(c.bad))) {
      LogicMeans(c, s, vs[t]);
      AgreeLowers(c, s, withWitness, vs[t], bs[t]);
      PrepHolds(bs[t], c.bad);
    }
    forall t | 0 < t < |bs| ensures Steps(c, s, ws[t - 1], ws[t]) <==> Steps(c, s, Lower(bs[t - 1]), Lower(bs[t])) {
      AgreeLinks(c, s, withWitness, vs[t - 1], vs[t], bs[t - 1], bs[t]);
    }
    if |bs| > 0 { AgreeLinks(c, s, withWitness, vs[0], vs[0], bs[0], bs[0]); }
  }

  /** From assignments of the simplified clauses to a run of the cone. */
  lemma CopiesRun(c: Aiger, rank: seq<nat>, s: iset<int>, withWitness: bool, g: Formula, bs: seq<Assignment>) returns (ws: seq<Valuation>)
    requires WellFormed(c, rank) && Simplified(c, s, withWitness, g) && Copies(c, s, g, bs)
    ensures |ws| == |bs| && Run(c, s, ws)
    ensures forall t :: 0 <= t < |bs| ==> (True(ws[t], c.bad) <==> Holds(bs[t], Prep(c.bad)))
  {
    hide LogicOf, WellFormed, Agree, Models, Simplified, Steps, Starts, Run, Lower, True, Holds;
    var vs := seq(|bs|, t requires 0 <= t < |bs| => LogicOf(c, s, withWitness, g, bs[t]));
    ws := seq(|bs|, t requires 0 <= t < |bs| => Lower(vs[t]));
    hide Copies;
    RunsAgree(c, rank, s, withWitness, g, vs, bs, ws);
  }

  /** From a run of the cone to assignments of the simplified clauses. */
  lemma RunCopies(c: Aiger, rank: seq<nat>, s: iset<int>, withWitness: bool, g: Formula, ws: seq<Valuation>) returns (bs: seq<Assignment>)
    requires WellFormed(c, rank) && Simplified(c, s, withWitness, g) && Run(c, s, ws)
    ensures |bs| == |ws| && Copies(c, s, g, bs)
    ensures forall t :: 0 <= t < |bs| ==> (True(ws[t], c.bad) <==> Holds(bs[t], Prep(c.bad)))
  {
    hide ClausesOf, WellFormed, Agree, Models, Simplified, Settled, Steps, Starts, Copies, Lower, True, Holds, Lift;
    AndsEven(c, rank);
    forall t | 0 <= t < |ws| ensures Models(Lift(ws[t]), Logic(c, s)) && Lower(Lift(ws[t])) == ws[t] {
      LiftLowers(ws[t]);
      LogicMeans(c, s, Lift(ws[t]));
    }
    var vs := seq(|ws|, t requires 0 <= t < |ws| => Lift(ws[t]));
    bs := seq(|ws|, t requires 0 <= t < |ws| => ClausesOf(c, s, withWitness, g, vs[t]));
    RunsAgree(c, rank, s, withWitness, g, vs, bs, ws);
  }

  lemma SameOnMapped(litmap: seq<int>, g: Formula, a: Assignment, b: Assignment)
    requires AllMapped(litmap, g) && forall x :: 0 < x < |litmap| && litmap[x] != 0 ==> (x in a <==> x in b)
    ensures Models(a, g) ==> Models(b, g)
  {
    if Models(a, g) {
      forall i | 0 <= i < |g| ensures Satisfies(b, g[i]) {
        var l :| l in g[i] && Holds(a, l);
        var j :| 0 <= j < |g[i]| && g[i][j] == l;
        assert ClauseMapped(litmap, g[i]) && Mapped(litmap, g[i][j]);
      }
    }
  }

  lemma SameVarMapped(litmap: seq<int>, a: Assignment, b: Assignment, u: nat)
    requires Mapped(litmap, Prep(u)) && forall x :: 0 < x < |litmap| && litmap[x] != 0 ==> (x in a <==> x in b)
    ensures Var(u) in Lower(a) <==> Var(u) in Lower(b)
    ensures True(Lower(a), u) <==> True(Lower(b), u)
  {
    assert NextIn(a, Var(u)) <==> Abs(Prep(u)) in a;
    assert NextIn(b, Var(u)) <==> Abs(Prep(u)) in b;
  }

  /** Woven together and sliced again, the assignments still satisfy everything. */
  lemma WovenCopies(c: Aiger, s: iset<int>, litmap: seq<int>, m: nat, g: Formula, bs: seq<Assignment>)
    requires LatchesMapped(c, s, litmap) && AllMapped(litmap, g) && Mapping(litmap, m) && |bs| > 0 && Copies(c, s, g, bs)
    ensures Copies(c, s, g, Slices(Weave(bs, litmap, m), litmap, m, |bs| - 1))
    ensures forall t, u :: 0 <= t < |bs| && u >= 0 && Mapped(litmap, Prep(u)) ==>
              (True(Lower(Slices(Weave(bs, litmap, m), litmap, m, |bs| - 1)[t]), u) <==> True(Lower(bs[t]), u))
  {
    var xs := Slices(Weave(bs, litmap, m), litmap, m, |bs| - 1);
    forall t | 0 <= t < |bs| ensures SameOn(litmap, bs[t], xs[t]) {
      forall x | 0 < x < |litmap| && litmap[x] != 0 ensures x in bs[t] <==> x in xs[t] { WeaveSlices(bs, litmap, m, t, x); }
    }
    forall t, u: int | 0 <= t < |bs| && u >= 0 && Mapped(litmap, Prep(u)) ensures True(Lower(xs[t]), u) <==> True(Lower(bs[t]), u) {
      SameVarMapped(litmap, bs[t], xs[t], u);
    }
    forall t | 0 <= t < |bs| ensures Models(xs[t], g) { SameOnMapped(litmap, g, bs[t], xs[t]); }
    forall t | 0 < t < |bs| ensures Steps(c, s, Lower(xs[t - 1]), Lower(xs[t])) {
      assert Steps(c, s, Lower(bs[t - 1]), Lower(bs[t]));
      forall i | 0 <= i < |c.latches| && Var(c.latches[i].lit) in s ensures LatchSteps(Lower(xs[t - 1]), Lower(xs[t]), c.latches[i]) {
        SameVarMapped(litmap, bs[t - 1], xs[t - 1], c.latches[i].next);
        SameVarMapped(litmap, bs[t], xs[t], c.latches[i].lit);
      }
    }
    forall i | 0 <= i < |c.latches| && Var(c.latches[i].lit) in s ensures LatchStarts(Lower(xs[0]), c.latches[i]) {
      SameVarMapped(litmap, bs[0], xs[0], c.latches[i].lit);
    }
  }

  ghost predicate SameOn(litmap: seq<int>, a: Assignment, b: Assignment) {
    forall x :: 0 < x < |litmap| && litmap[x] != 0 ==> (x in a <==> x in b)
  }

  lemma ReachedIfModel(c: Aiger, rank: seq<nat>, s: iset<int>, withWitness: bool, g: Formula, litmap: seq<int>, m: nat, k: nat, a: Assignment)
    requires WellFormed(c, rank) && Simplified(c, s, withWitness, g)
    requires Mapping(litmap, m) && LatchesMapped(c, s, litmap) && AllMapped(litmap, g) && Mapped(litmap, Prep(c.bad))
    requires Models(a, Unrolled(c, s, litmap, m, g, k)) && Holds(a, Timed(litmap, m, Prep(c.bad), k))
    ensures BadAt(c, s, k)
  {
    hide WellFormed, Simplified, Mapping, LatchesMapped, AllMapped, Models, Unrolled, Holds, Slice, Copies, Run, True;
    AndsEven(c, rank);
    UnrolledMeans(a, c, s, litmap, m, g, k);
    var bs := Slices(a, litmap, m, k);
    var ws := CopiesRun(c, rank, s, withWitness, g, bs);
    SliceHolds(a, litmap, m, k, Prep(c.bad));
    assert bs[k] == Slice(a, litmap, m, k);
  }

  lemma ModelIfReached(c: Aiger, rank: seq<nat>, s: iset<int>, withWitness: bool, g: Formula, litmap: seq<int>, m: nat, k: nat) returns (a: Assignment)
    requires WellFormed(c, rank) && Simplified(c, s, withWitness, g)
    requires Mapping(litmap, m) && LatchesMapped(c, s, litmap) && AllMapped(litmap, g) && Mapped(litmap, Prep(c.bad))
    requires BadAt(c, s, k)
    ensures Models(a, Unrolled(c, s, litmap, m, g, k)) && Holds(a, Timed(litmap, m, Prep(c.bad), k))
  {
    hide WellFormed, Simplified, Mapping, LatchesMapped, AllMapped, Models, Unrolled, Holds, Slice, Copies, Run, True, Lower, Weave, Mapped;
    AndsEven(c, rank);
    var ws :| |ws| == k + 1 && Run(c, s, ws) && True(ws[k], c.bad);
    var bs := RunCopies(c, rank, s, withWitness, g, ws);
    WovenCopies(c, s, litmap, m, g, bs);
    a := Weave(bs, litmap, m);
    UnrolledMeans(a, c, s, litmap, m, g, k);
    var xs := Slices(a, litmap, m, k);
    assert xs[k] == Slice(a, litmap, m, k);
    PrepHolds(bs[k], c.bad);
    PrepHolds(xs[k], c.bad);
    SliceHolds(a, litmap, m, k, Prep(c.bad));
  }

  /** The clauses for times 0 to k with the bad literal assumed at time k have a
      model exactly if the circuit reaches the bad literal in k steps. */
  lemma UnrollingCorrect(c: Aiger, rank: seq<nat>, s: iset<int>, withWitness: bool, g: Formula, litmap: seq<int>, m: nat, k: nat)
    requires WellFormed(c, rank) && Closed(c, s) && Var(c.bad) in s && Simplified(c, s, withWitness, g)
    requires Mapping(litmap, m) && LatchesMapped(c, s, litmap) && AllMapped(litmap, g) && Mapped(litmap, Prep(c.bad))
    ensures (exists a :: Models(a, Unrolled(c, s, litmap, m, g, k)) && Holds(a, Timed(litmap, m, Prep(c.bad), k))) <==>
            BadAt(c, Everything(c), k)
  {
    hide WellFormed, Simplified, Mapping, LatchesMapped, AllMapped, Models, Unrolled, Holds, Closed, BadAt;
    ClosedSuffices(c, rank, s, k);
    if a :| Models(a, Unrolled(c, s, litmap, m, g, k)) && Holds(a, Timed(litmap, m, Prep(c.bad), k)) {
      ReachedIfModel(c, rank, s, withWitness, g, litmap, m, k, a);
    }
    if BadAt(c, s, k) {
      var a := ModelIfReached(c, rank, s, withWitness, g, litmap, m, k);
    }
  }

  // ----- is the bad literal mapped? -----------------------------------------------------------

  ghost predicate InputsMapped(c: Aiger, s: iset<int>, litmap: seq<int>) {
    forall i :: 0 <= i < |c.inputs| && Var(c.inputs[i]) in s ==> Mapped(litmap, Prep(c.inputs[i]))
  }

  /** What gets a number: latches and inputs of the cone, what the simplified
      clauses mention, and what feeds the latches of the cone. */
  ghost predicate Wanted(c: Aiger, s: iset<int>, g: Formula, x: int) {
    || (exists i :: 0 <= i < |c.latches| && Var(c.latches[i].lit) in s && x == Abs(Prep(c.latches[i].lit)))
    || (exists i :: 0 <= i < |c.inputs| && Var(c.inputs[i]) in s && x == Abs(Prep(c.inputs[i])))
    || (exists i :: 0 <= i < |g| && Mentions(g[i], x))
    || (exists i :: 0 <= i < |c.latches| && Var(c.latches[i].lit) in s && x == Abs(Prep(c.latches[i].next)))
  }

  ghost predicate Mentions(cl: Clause, x: int) {
    exists j :: 0 <= j < |cl| && Abs(cl[j]) == x
  }

  /** Nothing else has a number. */
  ghost predicate OnlyWanted(c: Aiger, s: iset<int>, g: Formula, litmap: seq<int>) {
    forall x :: 0 <= x < |litmap| && litmap[x] != 0 ==> Wanted(c, s, g, x)
  }

  /** So the bad literal has a number exactly if it is one of these. */
  lemma BadMappedExactly(c: Aiger, s: iset<int>, g: Formula, litmap: seq<int>)
    requires LatchesMapped(c, s, litmap) && InputsMapped(c, s, litmap) && AllMapped(litmap, g)
    requires |litmap| == c.maxvar + 2 && Var(c.bad) <= c.maxvar && OnlyWanted(c, s, g, litmap)
    ensures Mapped(litmap, Prep(c.bad)) <==> Wanted(c, s, g, Abs(Prep(c.bad)))
  {
    var x := Abs(Prep(c.bad));
    if i :| 0 <= i < |g| && Mentions(g[i], x) {
      var j :| 0 <= j < |g[i]| && Abs(g[i][j]) == x;
      assert ClauseMapped(litmap, g[i]);
      assert Mapped(litmap, g[i][j]);
    }
  }

  /** If inputs are frozen the simplified clauses must mention the bad variable,
      unless it is an input, a latch or a latch's input: so it has a number. */
  lemma BadIsMapped(c: Aiger, rank: seq<nat>, g: Formula, litmap: seq<int>)
    requires WellFormed(c, rank) && Simplified(c, Cone(c), true, g) && |litmap| == c.maxvar + 2
    requires LatchesMapped(c, Cone(c), litmap) && InputsMapped(c, Cone(c), litmap) && AllMapped(litmap, g)
    ensures Mapped(litmap, Prep(c.bad))
  {
    hide Cone, Closed, Settled, WellFormed, Simplified, Models, Lower, Agree, Logic, Frozen, FindAnd, Defined;
    var s, x := Cone(c), Abs(Prep(c.bad));
    AndsEven(c, rank);
    if litmap[x] == 0 {
      ConeClosed(c);
      var a := LogicModel(c, rank, s);
      var b := ClausesOf(c, s, true, g, a);
      var flipped := if x in b then b - iset{x} else b + iset{x};
      SameOnMapped(litmap, g, b, flipped);
      var a' := LogicOf(c, s, true, g, flipped);
      LogicMeans(c, s, a);
      LogicMeans(c, s, a');
      forall v: int | v in s && 0 <= v <= c.maxvar && FindAnd(c, v, |c.ands|) < 0 ensures v in Lower(a) <==> v in Lower(a') {
        LeafKept(c, rank, litmap, a, b, flipped, a', v);
      }
      ConeDefined(c, rank, Var(c.bad));
      LeavesDecide(c, rank, s, Lower(a), Lower(a'), Var(c.bad));
      SameVar(c, s, true, a, b, c.bad);
      SameVar(c, s, true, a', flipped, c.bad);
      LowerAt(b, c.bad);
      LowerAt(flipped, c.bad);
    }
  }

  lemma LowerAt(b: Assignment, u: nat)
    ensures Var(u) in Lower(b) <==> Abs(Prep(u)) in b
  {
    assert NextIn(b, Var(u)) <==> Abs(Prep(u)) in b;
  }

  /** The gates can always be settled. */
  lemma LogicModel(c: Aiger, rank: seq<nat>, s: iset<int>) returns (a: Assignment)
    requires WellFormed(c, rank)
    ensures Models(a, Logic(c, s))
  {
    var w := Settle(c, rank, iset{});
    a := Lift(w);
    AndsEven(c, rank);
    LiftLowers(w);
    SettleHolds(c, rank, iset{});
    forall i | 0 <= i < |c.ands| ensures Var(c.ands[i].lhs) in Everything(c) { assert Gate(c, rank, c.ands[i]); }
    LogicMeans(c, s, a);
  }

  lemma LeafKept(c: Aiger, rank: seq<nat>, litmap: seq<int>, a: Assignment, b: Assignment, b': Assignment, a': Assignment, v: int)
    requires WellFormed(c, rank) && |litmap| == c.maxvar + 2 && v in Cone(c) && 0 <= v <= c.maxvar && FindAnd(c, v, |c.ands|) < 0
    requires LatchesMapped(c, Cone(c), litmap) && InputsMapped(c, Cone(c), litmap)
    requires Agree(c, Cone(c), true, a, b) && Agree(c, Cone(c), true, a', b')
    requires Settled(c, Cone(c), Lower(a)) && Settled(c, Cone(c), Lower(a'))
    requires forall x :: 0 < x < |litmap| && litmap[x] != 0 ==> (x in b <==> x in b')
    ensures v in Lower(a) <==> v in Lower(a')
  {
    hide Cone, Closed, Settled, WellFormed;
    ConeDefined(c, rank, v);
    if v == 0 {
      assert v !in Lower(a) && v !in Lower(a') by { SettledZero(c, Cone(c), Lower(a)); SettledZero(c, Cone(c), Lower(a')); }
    } else {
      assert Prep(2 * v) == v + 1;
      assert Mapped(litmap, Prep(2 * v)) && Frozen(c, Cone(c), true, v + 1);
      SameVar(c, Cone(c), true, a, b, 2 * v);
      SameVar(c, Cone(c), true, a', b', 2 * v);
      SameVarMapped(litmap, b, b', 2 * v);
    }
  }

  lemma SettledZero(c: Aiger, s: iset<int>, w: Valuation)
    requires Settled(c, s, w) && 0 in s
    ensures 0 !in w
  {}

  /** The bad literal is the conjunction of two inputs. */
  function Example(): Aiger {
    Aiger(3, [2, 4], [], [And(6, 2, 4)], 6)
  }

  lemma ExampleFits()
    ensures WellFormed(Example(), [0, 0, 0, 1]) && 0 !in Cone(Example())
  {
    var c := Example();
    assert IsInput(c, 1) by { assert c.inputs[0] == 2 * 1; }
    assert IsInput(c, 2) by { assert c.inputs[1] == 2 * 2; }
    assert IsAnd(c, 3) by { assert c.ands[0].lhs == 2 * 3; }
    assert Gate(c, [0, 0, 0, 1], c.ands[0]);
    var s := iset x: int | IsVar(c, x) && x != 0;
    assert Closed(c, s);
    if 0 in Cone(c) { ConeLeast(c, s, 0); }
  }

  /** Whatever the value of the gate, the inputs can be chosen to match. */
  lemma ExampleModel(b: Assignment) returns (a: Assignment)
    ensures Agree(Example(), Cone(Example()), false, a, b) && Models(a, Logic(Example(), Cone(Example())))
  {
    hide Cone;
    var c := Example();
    ExampleFits();
    var w: Valuation := if 4 in b then iset{1, 2, 3} else iset{};
    a := Lift(w);
    LiftLowers(w);
    LogicMeans(c, Cone(c), a);
    assert GateHolds(w, c.ands[0]);
    assert 4 in a <==> PreviousIn(w, 4);
  }

  /** Without frozen inputs it need not: the empty clause set is a right
      simplification of the example, and its gate has no number. */
  lemma UnmappedBad()
    ensures WellFormed(Example(), [0, 0, 0, 1])
    ensures var c, litmap := Example(), [0, 0, 1, 2, 0];
            && Simplified(c, Cone(c), false, []) && Mapping(litmap, 2) && LatchesMapped(c, Cone(c), litmap)
            && InputsMapped(c, Cone(c), litmap) && AllMapped(litmap, []) && !Mapped(litmap, Prep(c.bad))
  {
    hide Cone, Logic;
    var c := Example();
    ExampleFits();
    forall b | Models(b, []) ensures exists a :: Agree(c, Cone(c), false, a, b) && Models(a, Logic(c, Cone(c))) {
      var a := ExampleModel(b);
    }
    forall a | Models(a, Logic(c, Cone(c))) ensures exists b :: Agree(c, Cone(c), false, a, b) && Models(b, []) {
      assert Agree(c, Cone(c), false, a, a) && Models(a, []);
    }
  }

  // ----- the model checker ---------------------------------------------------------------------

  function Renumbered(litmap: seq<int>, c: Clause): (r: Clause)
    requires forall j :: 0 <= j < |c| ==> Abs(c[j]) < |litmap|
    ensures |r| == |c|
  {
    seq(|c|, j requires 0 <= j < |c| => MapLit(litmap, c[j]))
  }

  /** The second mapping has the numbers of the first and possibly more. */
  ghost predicate Extends(a: seq<int>, b: seq<int>) {
    |a| == |b| && forall x :: 0 <= x < |a| && a[x] != 0 ==> b[x] == a[x]
  }

  class Checker {
    const c: Aiger
    const coi: array<int>
    ghost const rank: seq<nat>
    /** The simplified clauses before they are renumbered. */
    ghost const simplified: Formula
    const litmap: array<int>
    var maxvar: nat
    var clauses: Formula
    var lgl: Formula            // what the solver for the unrolling has been given

    ghost function S(): iset<int> { Cone(c) }

    ghost predicate Wired()
      reads coi
    {
      && WellFormed(c, rank) && coi.Length == c.maxvar + 1 && litmap.Length == c.maxvar + 2 && litmap != coi
      && (forall v :: 0 <= v <= c.maxvar ==> (coi[v] != 0 <==> v in S()))
      && (forall i, j :: 0 <= i < |simplified| && 0 <= j < |simplified[i]| ==> 1 <= Abs(simplified[i][j]) <= c.maxvar + 1)
    }

    predicate InCoi(u: nat)
      requires Var(u) < coi.Length
      reads coi
    {
      coi[Var(u)] != 0
    }

    constructor (c: Aiger, coi: array<int>, simplified: Formula, ghost rank: seq<nat>)
      requires WellFormed(c, rank) && coi.Length == c.maxvar + 1
      requires forall v :: 0 <= v <= c.maxvar ==> (coi[v] != 0 <==> v in Cone(c))
      requires forall i, j :: 0 <= i < |simplified| && 0 <= j < |simplified[i]| ==> 1 <= Abs(simplified[i][j]) <= c.maxvar + 1
      ensures Wired() && this.c == c && this.coi == coi && this.simplified == simplified && fresh(litmap)
      ensures maxvar == 0 && clauses == simplified && lgl == [] && litmap[..] == seq(c.maxvar + 2, _ => 0)
    {
      this.c, this.coi, this.simplified, this.rank := c, coi, simplified, rank;
      litmap := new int[c.maxvar + 2](_ => 0);
      maxvar, clauses, lgl := 0, simplified, [];
      new;
      assert litmap[..] == seq(c.maxvar + 2, _ => 0);
    }

    /** Numbers the variable of the literal, if it has no number yet. */
    method MapUntimedLit(lit: int) returns (res: int)
      requires 1 <= Abs(lit) < litmap.Length && Mapping(litmap[..], maxvar)
      modifies litmap, `maxvar
      ensures Mapping(litmap[..], maxvar) && Extends(old(litmap[..]), litmap[..])
      ensures Mapped(litmap[..], lit) && res == MapLit(litmap[..], lit)
      ensures forall x :: 0 <= x < litmap.Length && x != Abs(lit) ==> litmap[x] == old(litmap[x])
    {
      var idx := Abs(lit);
      res := litmap[idx];
      if res == 0 {
        maxvar := maxvar + 1;
        res := maxvar;
        litmap[idx] := res;
      }
      if lit < 0 { res := -res; }
    }

    method MapClause(cl: Clause) returns (r: Clause)
      requires forall j :: 0 <= j < |cl| ==> 1 <= Abs(cl[j]) < litmap.Length
      requires Mapping(litmap[..], maxvar)
      modifies litmap, `maxvar
      ensures Mapping(litmap[..], maxvar) && Extends(old(litmap[..]), litmap[..])
      ensures ClauseMapped(litmap[..], cl) && r == Renumbered(litmap[..], cl)
      ensures forall x :: 0 <= x < litmap.Length && !Mentions(cl, x) ==> litmap[x] == old(litmap[x])
    {
      r := [];
      for p := 0 to |cl|
        invariant Mapping(litmap[..], maxvar) && Extends(old(litmap[..]), litmap[..])
        invariant |r| == p && forall j :: 0 <= j < p ==> Mapped(litmap[..], cl[j]) && r[j] == MapLit(litmap[..], cl[j])
        invariant forall x :: 0 <= x < litmap.Length && !Mentions(cl, x) ==> litmap[x] == old(litmap[x])
      {
        ghost var before := litmap[..];
        var l := MapUntimedLit(cl[p]);
        forall j | 0 <= j < p ensures Mapped(litmap[..], cl[j]) && r[j] == MapLit(litmap[..], cl[j]) {
          assert before[Abs(cl[j])] != 0;
        }
        r := r + [l];
      }
    }

    /** The clauses, with the first n renumbered. */
    ghost predicate Halfway(n: nat, m: seq<int>)
      reads `clauses
    {
      && n <= |clauses| == |simplified|
      && (forall i :: 0 <= i < n ==> ClauseMapped(m, simplified[i]) && clauses[i] == Renumbered(m, simplified[i]))
      && (forall i :: n <= i < |clauses| ==> clauses[i] == simplified[i])
    }

    lemma RenumberedKept(a: seq<int>, b: seq<int>, cl: Clause)
      requires Extends(a, b) && ClauseMapped(a, cl)
      ensures ClauseMapped(b, cl) && Renumbered(b, cl) == Renumbered(a, cl)
    {
      forall j | 0 <= j < |cl| ensures Mapped(b, cl[j]) && MapLit(b, cl[j]) == MapLit(a, cl[j]) { assert Mapped(a, cl[j]); }
    }

    lemma HalfwayKept(n: nat, a: seq<int>, b: seq<int>)
      requires Halfway(n, a) && Extends(a, b)
      ensures Halfway(n, b)
    {
      forall i | 0 <= i < n ensures ClauseMapped(b, simplified[i]) && clauses[i] == Renumbered(b, simplified[i]) {
        RenumberedKept(a, b, simplified[i]);
      }
    }

    /** Renumbers the clauses in place. */
    method MapCnf()
      requires Wired() && clauses == simplified && Mapping(litmap[..], maxvar) && OnlyWanted(c, S(), simplified, litmap[..])
      modifies litmap, `maxvar, `clauses
      ensures Mapping(litmap[..], maxvar) && Extends(old(litmap[..]), litmap[..]) && Halfway(|simplified|, litmap[..])
      ensures OnlyWanted(c, S(), simplified, litmap[..])
    {
      for i := 0 to |clauses|
        invariant |clauses| == |simplified|
        invariant Mapping(litmap[..], maxvar) && Extends(old(litmap[..]), litmap[..]) && Halfway(i, litmap[..])
        invariant OnlyWanted(c, S(), simplified, litmap[..])
      {
        hide Mapping, OnlyWanted;
        ghost var before := litmap[..];
        var r := MapClause(clauses[i]);
        HalfwayKept(i, before, litmap[..]);
        StillWanted(before, litmap[..], iset x | Mentions(simplified[i], x));
        clauses := clauses[i := r];
      }
    }

    /** New numbers for wanted variables only. */
    lemma StillWanted(a: seq<int>, b: seq<int>, xs: iset<int>)
      requires OnlyWanted(c, S(), simplified, a) && |a| == |b|
      requires forall x :: 0 <= x < |a| && x !in xs ==> b[x] == a[x]
      requires forall x :: x in xs ==> Wanted(c, S(), simplified, x)
      ensures OnlyWanted(c, S(), simplified, b)
    {
      hide Wanted;
    }

    /** Gives a number to the variable of an even literal. */
    method Number(u: nat)
      requires Wired() && Var(u) <= c.maxvar && u % 2 == 0 && Mapping(litmap[..], maxvar)
      modifies litmap, `maxvar
      ensures Mapping(litmap[..], maxvar) && Mapped(litmap[..], Prep(u))
      ensures forall x :: Mapped(old(litmap[..]), x) ==> Mapped(litmap[..], x)
      ensures forall x :: 0 <= x < litmap.Length && x != Abs(Prep(u)) ==> litmap[x] == old(litmap[x])
    {
      maxvar := maxvar + 1;
      litmap[Prep(u)] := maxvar;
    }

    /** The latches of the cone, their inputs, and the inputs have numbers. */
    ghost predicate Numbered(m: seq<int>, latches: nat, nexts: nat, inputs: nat)
    {
      && (forall i :: 0 <= i < |c.latches| && i < latches && Var(c.latches[i].lit) in S() ==> Mapped(m, Prep(c.latches[i].lit)))
      && (forall i :: 0 <= i < |c.latches| && i < nexts && Var(c.latches[i].lit) in S() ==> Mapped(m, Prep(c.latches[i].next)))
      && (forall i :: 0 <= i < |c.inputs| && i < inputs && Var(c.inputs[i]) in S() ==> Mapped(m, Prep(c.inputs[i])))
    }

    lemma NumberedKept(a: seq<int>, b: seq<int>, latches: nat, nexts: nat, inputs: nat)
      requires Numbered(a, latches, nexts, inputs) && forall x :: Mapped(a, x) ==> Mapped(b, x)
      ensures Numbered(b, latches, nexts, inputs)
    {
      hide Cone, Mapped;
    }

    lemma ExtendsMapped(a: seq<int>, b: seq<int>)
      requires Extends(a, b)
      ensures forall x :: Mapped(a, x) ==> Mapped(b, x)
    {}

    /** Where things are in the circuit. */
    lemma InRange()
      requires Wired()
      ensures Var(c.bad) <= c.maxvar && litmap != coi && litmap.Length == c.maxvar + 2
      ensures forall i :: 0 <= i < |c.latches| ==> c.latches[i].lit % 2 == 0 && 1 <= Var(c.latches[i].lit) <= c.maxvar
      ensures forall i :: 0 <= i < |c.latches| ==> Var(c.latches[i].next) <= c.maxvar
      ensures forall i :: 0 <= i < |c.inputs| ==> c.inputs[i] % 2 == 0 && Var(c.inputs[i]) <= c.maxvar
    {
      hide Cone;
    }

    method NumberLatches()
      requires Wired() && Mapping(litmap[..], maxvar) && OnlyWanted(c, S(), simplified, litmap[..])
      modifies litmap, `maxvar
      ensures Mapping(litmap[..], maxvar) && Numbered(litmap[..], |c.latches|, 0, 0)
      ensures OnlyWanted(c, S(), simplified, litmap[..])
    {
      hide Cone, Wired, OnlyWanted;
      InRange();
      for i := 0 to |c.latches|
        invariant Wired() && Mapping(litmap[..], maxvar) && Numbered(litmap[..], i, 0, 0)
        invariant OnlyWanted(c, S(), simplified, litmap[..])
      {
        ghost var before := litmap[..];
        CoiAt(c.latches[i].lit);
        if InCoi(c.latches[i].lit) {
          Number(c.latches[i].lit);
          NumberedKept(before, litmap[..], i, 0, 0);
          StillWanted(before, litmap[..], iset{Abs(Prep(c.latches[i].lit))});
        }
      }
    }

    method NumberInputs()
      requires Wired() && Mapping(litmap[..], maxvar) && Numbered(litmap[..], |c.latches|, 0, 0)
      requires OnlyWanted(c, S(), simplified, litmap[..])
      modifies litmap, `maxvar
      ensures Mapping(litmap[..], maxvar) && Numbered(litmap[..], |c.latches|, 0, |c.inputs|)
      ensures OnlyWanted(c, S(), simplified, litmap[..])
    {
      hide Cone, Wired, OnlyWanted;
      InRange();
      for i := 0 to |c.inputs|
        invariant Wired() && Mapping(litmap[..], maxvar) && Numbered(litmap[..], |c.latches|, 0, i)
        invariant OnlyWanted(c, S(), simplified, litmap[..])
      {
        ghost var before := litmap[..];
        CoiAt(c.inputs[i]);
        if InCoi(c.inputs[i]) {
          Number(c.inputs[i]);
          NumberedKept(before, litmap[..], |c.latches|, 0, i);
          StillWanted(before, litmap[..], iset{Abs(Prep(c.inputs[i]))});
        }
      }
    }

    lemma CoiAt(u: nat)
      requires Wired() && Var(u) <= c.maxvar
      ensures Var(u) < coi.Length == c.maxvar + 1 && (coi[Var(u)] != 0 <==> Var(u) in S())
    {
      hide Cone;
    }

    method NumberNexts()
      requires Wired() && Mapping(litmap[..], maxvar) && Numbered(litmap[..], |c.latches|, 0, |c.inputs|)
      requires Halfway(|simplified|, litmap[..]) && OnlyWanted(c, S(), simplified, litmap[..])
      modifies litmap, `maxvar
      ensures Mapping(litmap[..], maxvar) && Numbered(litmap[..], |c.latches|, |c.latches|, |c.inputs|)
      ensures Halfway(|simplified|, litmap[..]) && OnlyWanted(c, S(), simplified, litmap[..])
    {
      hide Cone, Wired, Mapping, Halfway, OnlyWanted;
      InRange();
      for i := 0 to |c.latches|
        invariant Wired() && Mapping(litmap[..], maxvar) && Numbered(litmap[..], |c.latches|, i, |c.inputs|)
        invariant Halfway(|simplified|, litmap[..]) && OnlyWanted(c, S(), simplified, litmap[..])
      {
        ghost var before := litmap[..];
        CoiAt(c.latches[i].lit);
        if InCoi(c.latches[i].lit) {
          var l := MapUntimedLit(Prep(c.latches[i].next));
          ExtendsMapped(before, litmap[..]);
          NumberedKept(before, litmap[..], |c.latches|, i, |c.inputs|);
          HalfwayKept(|simplified|, before, litmap[..]);
          StillWanted(before, litmap[..], iset{Abs(Prep(c.latches[i].next))});
        }
      }
    }

    /** Numbers the variables, renumbers the clauses, and adds the reset values. */
    method Init()
      requires Wired() && clauses == simplified && lgl == [] && Mapping(litmap[..], 0)
      modifies litmap, `maxvar, `clauses, `lgl
      ensures Ready(litmap[..]) && lgl == Resets(c, S(), litmap[..], |c.latches|)
      ensures Mapped(litmap[..], Prep(c.bad)) <==> Wanted(c, S(), simplified, Abs(Prep(c.bad)))
    {
      hide Cone, Wired, Halfway, Extends, Wanted;
      InRange();
      maxvar := 0;
      NumberLatches();
      NumberInputs();
      ghost var before := litmap[..];
      MapCnf();
      ExtendsMapped(before, litmap[..]);
      NumberedKept(before, litmap[..], |c.latches|, 0, |c.inputs|);
      NumberNexts();
      AddResets();
      BadMappedExactly(c, S(), simplified, litmap[..]);
    }

    /** Everything that is needed has a number. */
    ghost predicate Ready(m: seq<int>)
      reads `maxvar, `clauses
    {
      && Mapping(m, maxvar) && |m| == c.maxvar + 2 && LatchesMapped(c, S(), m) && InputsMapped(c, S(), m)
      && AllMapped(m, simplified) && |clauses| == |simplified|
      && forall i :: 0 <= i < |clauses| ==> clauses[i] == Renumbered(m, simplified[i])
    }

    method AddResets()
      requires Wired() && Mapping(litmap[..], maxvar) && Numbered(litmap[..], |c.latches|, |c.latches|, |c.inputs|)
      requires Halfway(|simplified|, litmap[..]) && lgl == []
      modifies `lgl
      ensures Ready(litmap[..]) && lgl == Resets(c, S(), litmap[..], |c.latches|)
    {
      hide Cone, Wired, Mapping, Mapped;
      InRange();
      for i := 0 to |c.latches|
        invariant Wired() && LatchesMapped(c, S(), litmap[..]) && lgl == Resets(c, S(), litmap[..], i)
      {
        var l := c.latches[i];
        CoiAt(l.lit);
        if InCoi(l.lit) && l.lit != l.reset {
          var lit := MapLit(litmap[..], Prep(l.lit));
          if l.reset == 0 { lgl := lgl + [[-lit]]; }
          if l.reset == 1 { lgl := lgl + [[lit]]; }
        }
      }
    }

    /** The clauses that link the latches to the step before. */
    method LinkLatches(time: nat)
      requires Wired() && Ready(litmap[..]) && time > 0
      modifies `lgl
      ensures lgl == old(lgl) + Equivs(c, S(), litmap[..], maxvar, time, |c.latches|)
    {
      hide Cone, Wired, Mapping, Mapped;
      InRange();
      for i := 0 to |c.latches|
        invariant Wired() && lgl == old(lgl) + Equivs(c, S(), litmap[..], maxvar, time, i)
      {
        var l := c.latches[i];
        CoiAt(l.lit);
        if InCoi(l.lit) {
          var prev := Shift(maxvar, MapLit(litmap[..], Prep(l.next)), time - 1);
          var lit := Shift(maxvar, MapLit(litmap[..], Prep(l.lit)), time);
          lgl := lgl + Equiv(prev, lit);
        }
      }
    }

    /** The clauses for one more time step. */
    method ShiftCnf(time: nat)
      requires Wired() && Ready(litmap[..])
      modifies `lgl
      ensures lgl == old(lgl) + StepClauses(c, S(), litmap[..], maxvar, simplified, time)
    {
      hide Cone, Wired, Mapping;
      ghost var m := litmap[..];
      if time > 0 { LinkLatches(time); }
      ghost var linked := lgl;
      for i := 0 to |clauses|
        invariant lgl == linked + TimedClauses(m, maxvar, simplified, time)[..i]
      {
        var r := [];
        for p := 0 to |clauses[i]|
          invariant |r| == p && forall j :: 0 <= j < p ==> r[j] == Shift(maxvar, clauses[i][j], time)
        {
          r := r + [Shift(maxvar, clauses[i][p], time)];
        }
        assert r == TimedClause(m, maxvar, simplified[i], time);
        lgl := lgl + [r];
      }
    }

    /** The solver literal assumed for the bad literal at one time. */
    function Bad(time: nat): int
      requires Wired()
      reads litmap, `maxvar, coi
    {
      Shift(maxvar, MapLit(litmap[..], Prep(c.bad)), time)
    }

    /** Unrolls up to bound k. With the bad literal assumed at time k, the clauses
        given to the solver have a model exactly if the circuit reaches it in k steps. */
    method UnrollTo(k: nat, ghost withWitness: bool)
      requires Wired() && Ready(litmap[..]) && lgl == Resets(c, S(), litmap[..], |c.latches|)
      requires Simplified(c, S(), withWitness, simplified) && Mapped(litmap[..], Prep(c.bad))
      modifies `lgl
      ensures Wired() && lgl == Unrolled(c, S(), litmap[..], maxvar, simplified, k)
      ensures Reaches(lgl, Bad(k)) <==> BadAt(c, Everything(c), k)
    {
      hide Cone, Wired, Simplified, Mapping, Mapped, Models, BadAt, Resets, StepClauses;
      for t := 0 to k + 1
        invariant Wired()
        invariant lgl == if t == 0 then Resets(c, S(), litmap[..], |c.latches|) else Unrolled(c, S(), litmap[..], maxvar, simplified, t - 1)
      {
        ShiftCnf(t);
      }
      Decides(k, withWitness);
    }

    function Untimed(lit: int): int
      requires Wired() && Abs(lit) <= c.maxvar + 1
      reads litmap, coi
    {
      MapLit(litmap[..], lit)
    }

    /** Whether the bad literal has a number. */
    lemma Numbers(withWitness: bool)
      requires Wired() && Ready(litmap[..]) && Simplified(c, S(), withWitness, simplified)
      ensures Var(c.bad) <= c.maxvar && Abs(Prep(c.bad)) <= c.maxvar + 1
      ensures Untimed(Prep(c.bad)) != 0 <==> Mapped(litmap[..], Prep(c.bad))
      ensures withWitness ==> Mapped(litmap[..], Prep(c.bad))
    {
      hide Cone, Simplified;
      InRange();
      if withWitness { BadIsMapped(c, rank, simplified, litmap[..]); }
    }

    /** Adds one time step after the other, until the bad literal is reached or the bound is. */
    method Bounds(o: Lingeling, maxk: nat, ghost withWitness: bool) returns (r: Answer)
      requires Wired() && Ready(litmap[..]) && lgl == Resets(c, S(), litmap[..], |c.latches|)
      requires Trusted(o, c, withWitness) && simplified == o.simp(Logic(c, S())) && Mapped(litmap[..], Prep(c.bad))
      modifies `lgl
      ensures Justified(c, maxk, withWitness, r) && !r.Unmapped?
    {
      hide Cone, Wired, Simplified, Mapping, Mapped, Models, BadAt, Resets, StepClauses, Reaches;
      for k := 0 to maxk + 1
        invariant Wired() && forall j: nat :: j < k ==> !BadAt(c, Everything(c), j)
        invariant lgl == if k == 0 then Resets(c, S(), litmap[..], |c.latches|) else Unrolled(c, S(), litmap[..], maxvar, simplified, k - 1)
      {
        ShiftCnf(k);
        Decides(k, withWitness);
        var answer := o.sat(lgl, Bad(k));
        assert answer <==> Reaches(lgl, Bad(k));
        if answer { return Reached(k); }
        if c.latches == [] {
          forall j: nat ensures !BadAt(c, Everything(c), j) {
            NoLatches(c, Everything(c), j);
            NoLatches(c, Everything(c), k);
          }
          return Never;
        }
      }
      r := NotWithin(maxk);
    }

    lemma Decides(k: nat, withWitness: bool)
      requires Wired() && Ready(litmap[..]) && lgl == Unrolled(c, S(), litmap[..], maxvar, simplified, k)
      requires Simplified(c, S(), withWitness, simplified) && Mapped(litmap[..], Prep(c.bad))
      ensures Reaches(lgl, Bad(k)) <==> BadAt(c, Everything(c), k)
    {
      hide Cone, Simplified, Models, BadAt, Unrolled, Mapping;
      ConeClosed(c);
      UnrollingCorrect(c, rank, S(), withWitness, simplified, litmap[..], maxvar, k);
    }
  }

  lemma GateInRange(c: Aiger, rank: seq<nat>, i: nat)
    requires WellFormed(c, rank) && i < |c.ands|
    ensures Var(c.ands[i].lhs) <= c.maxvar
  {
    assert Gate(c, rank, c.ands[i]);
  }

  lemma LogicStart(c: Aiger, s: iset<int>, start: Formula)
    ensures start + AndClauses(c, s, 0) == start
  {}

  /** The clauses of one more gate. */
  lemma LogicStep(c: Aiger, s: iset<int>, start: Formula, f: Formula, i: nat)
    requires i < |c.ands| && f == start + AndClauses(c, s, i)
    ensures var a := c.ands[i];
            f + (if Var(a.lhs) in s then AndGate(Prep(a.lhs), Prep(a.rhs0), Prep(a.rhs1)) else []) == start + AndClauses(c, s, i + 1)
  {
    hide AndGate, Prep;
  }

  /** The untimed clauses of the gates in the cone. */
  method EncodeLogic(c: Aiger, coi: array<int>, ghost s: iset<int>, ghost rank: seq<nat>) returns (f: Formula)
    requires WellFormed(c, rank) && coi.Length == c.maxvar + 1
    requires forall v :: 0 <= v <= c.maxvar ==> (coi[v] != 0 <==> v in s)
    ensures f == Logic(c, s)
  {
    hide WellFormed, Gate, AndGate, Prep, AndClauses;
    f := if coi[0] != 0 then [[-1]] else [];
    ghost var start := f;
    LogicStart(c, s, start);
    for i := 0 to |c.ands|
      invariant f == start + AndClauses(c, s, i)
    {
      GateInRange(c, rank, i);
      LogicStep(c, s, start, f, i);
      if coi[Var(c.ands[i].lhs)] != 0 {
        f := f + AndGate(Prep(c.ands[i].lhs), Prep(c.ands[i].rhs0), Prep(c.ands[i].rhs1));
      }
    }
  }

  // ----- from the circuit to the answer ---------------------------------------------------------

  /** What lingeling is asked: to simplify, whether a literal is fixed, whether
      clauses have a model with an assumed literal. */
  datatype Lingeling = Lingeling(simp: Formula -> Formula, fixed: (Formula, int) -> bool, sat: (Formula, int) -> bool)

  /** Its answers are right. */
  ghost predicate Trusted(o: Lingeling, c: Aiger, withWitness: bool) {
    && Simplified(c, Cone(c), withWitness, o.simp(Logic(c, Cone(c))))
    && (forall g, l :: o.fixed(g, l) ==> Entails(g, l))
    && (forall g, l :: o.sat(g, l) <==> Reaches(g, l))
  }

  ghost predicate Reaches(g: Formula, l: int) {
    exists a :: Models(a, g) && Holds(a, l)
  }

  datatype Answer =
    | Never                   // the bad literal is never true
    | Reached(k: nat)         // it is true after k steps, and not before
    | NotWithin(maxk: nat)    // it is not true within the bound
    | Unmapped                // the assertion fails that it has a number

  /** What an answer says about the circuit. */
  ghost predicate Justified(c: Aiger, maxk: nat, withWitness: bool, r: Answer) {
    match r
    case Never => forall k: nat :: !BadAt(c, Everything(c), k)
    case Reached(k) => k <= maxk && BadAt(c, Everything(c), k) && forall j: nat :: j < k ==> !BadAt(c, Everything(c), j)
    case NotWithin(m) => m == maxk && forall j: nat :: j <= maxk ==> !BadAt(c, Everything(c), j)
    case Unmapped => !withWitness
  }

  /** Encodes and simplifies the cone once, then unrolls it step by step. Every answer
      is right, and with frozen inputs the bad literal always has a number. */
  method BoundedCheck(c: Aiger, ghost rank: seq<nat>, o: Lingeling, maxk: nat, ghost withWitness: bool) returns (r: Answer)
    requires WellFormed(c, rank) && Trusted(o, c, withWitness)
    ensures Justified(c, maxk, withWitness, r)
    ensures r.Unmapped? ==> !Wanted(c, Cone(c), o.simp(Logic(c, Cone(c))), Abs(Prep(c.bad)))
  {
    hide WellFormed, Cone, Simplified, BadAt, Wanted, Entails, Checker.Wired, Checker.Ready, Logic, Models;
    ConeClosed(c);
    var coi := TravCoi(c, rank);
    var logic := EncodeLogic(c, coi, Cone(c), rank);
    var simplified := o.simp(logic);
    BadInRange(c, rank);
    if o.fixed(logic, -Prep(c.bad)) {
      assert Entails(logic, -Prep(c.bad));
      forall k: nat ensures !BadAt(c, Everything(c), k) { FixedNever(c, rank, Cone(c), k); }
      return Never;
    }
    SimplifiedRange(c, Cone(c), withWitness, simplified);
    var checker := new Checker(c, coi, simplified, rank);
    NoNumbers(checker.litmap[..], c.maxvar + 2);
    checker.Init();
    checker.Numbers(withWitness);
    if checker.Untimed(Prep(c.bad)) == 0 { return Unmapped; }
    r := checker.Bounds(o, maxk, withWitness);
  }

  lemma BadInRange(c: Aiger, rank: seq<nat>)
    requires WellFormed(c, rank)
    ensures Var(c.bad) <= c.maxvar
  {}

  lemma SimplifiedRange(c: Aiger, s: iset<int>, withWitness: bool, g: Formula)
    requires Simplified(c, s, withWitness, g)
    ensures forall i, j :: 0 <= i < |g| && 0 <= j < |g[i]| ==> 1 <= Abs(g[i][j]) <= c.maxvar + 1
  {}

  lemma NoNumbers(litmap: seq<int>, n: nat)
    requires litmap == seq(n, _ => 0)
    ensures Mapping(litmap, 0)
  {}
}
