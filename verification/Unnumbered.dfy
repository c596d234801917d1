/** Which circuits can lose the number of their bad literal when inputs are not frozen. */
module Unnumbered {
  import opened Cnf
  import opened Circuit
  import opened Unroll

  // ----- clauses under an assumed literal ------------------------------------------------

  /** The clause without a literal. */
  function Delete(c: Clause, l: int): (r: Clause)
    ensures forall k :: k in r <==> k in c && k != l
  {
    if c == [] then [] else
      assert c == [c[0]] + c[1..];
      (if c[0] == l then [] else [c[0]]) + Delete(c[1..], l)
  }

  /** What the formula says when l is true. */
  function Assume(f: Formula, l: int): Formula {
    if f == [] then [] else
      var n := |f| - 1;
      Assume(f[..n], l) + if l in f[n] then [] else [Delete(f[n], -l)]
  }

  /** The assignment with l made true. */
  ghost function Making(a: Assignment, l: int): Assignment {
    if l > 0 then a + iset{l} else a - iset{-l}
  }

  lemma MakingHolds(a: Assignment, l: int, k: int)
    requires l != 0
    ensures Holds(Making(a, l), k) <==> if k == l then true else if k == -l then false else Holds(a, k)
  {}

  lemma DeleteMeans(a: Assignment, c: Clause, l: int)
    requires l != 0
    ensures Satisfies(Making(a, l), c) <==> l in c || Satisfies(a, Delete(c, -l))
  {
    forall k ensures Holds(Making(a, l), k) <==> if k == l then true else if k == -l then false else Holds(a, k) { MakingHolds(a, l, k); }
    hide Making, Holds;
    if Satisfies(Making(a, l), c) && l !in c {
      var k :| k in c && Holds(Making(a, l), k);
      assert k in Delete(c, -l) && Holds(a, k);
    }
    if Satisfies(a, Delete(c, -l)) && l !in c {
      var k :| k in Delete(c, -l) && Holds(a, k);
      assert k in c && Holds(Making(a, l), k);
    }
    if l in c { assert Holds(Making(a, l), l); }
  }

  lemma OneClause(a: Assignment, c: Clause)
    ensures Models(a, [c]) <==> Satisfies(a, c)
  {
    assert [c][0] == c;
  }

  lemma {:induction false} AssumeMeans(a: Assignment, f: Formula, l: int)
    requires l != 0
    ensures Models(a, Assume(f, l)) <==> Models(Making(a, l), f)
  {
    hide Satisfies, Making;
    if f != [] {
      var n := |f| - 1;
      AssumeMeans(a, f[..n], l);
      DeleteMeans(a, f[n], l);
      OneClause(a, Delete(f[n], -l));
      OneClause(Making(a, l), f[n]);
      assert f == f[..n] + [f[n]];
      ModelsConcat(Making(a, l), f[..n], [f[n]]);
      ModelsConcat(a, Assume(f[..n], l), if l in f[n] then [] else [Delete(f[n], -l)]);
    }
  }

  /** All literals are of variables up to n, other than x. */
  ghost predicate Over(f: Formula, n: int, x: int) {
    forall i :: 0 <= i < |f| ==> ClauseOver(f[i], n, x)
  }

  ghost predicate ClauseOver(c: Clause, n: int, x: int) {
    forall k :: k in c ==> 1 <= Abs(k) <= n && Abs(k) != x
  }

  lemma {:induction false} AssumeOver(f: Formula, l: int, n: int)
    requires Over(f, n, 0) && l != 0
    ensures Over(Assume(f, l), n, Abs(l))
  {
    if f != [] {
      var m := |f| - 1;
      AssumeOver(f[..m], l, n);
      assert ClauseOver(f[m], n, 0);
      if l !in f[m] { assert ClauseOver(Delete(f[m], -l), n, Abs(l)); }
    }
  }

  // ----- either of two formulas -------------------------------------------------------------

  function Cross(c: Clause, g: Formula): Formula {
    if g == [] then [] else Cross(c, g[..|g| - 1]) + [c + g[|g| - 1]]
  }

  function Either(f: Formula, g: Formula): Formula {
    if f == [] then [] else Either(f[..|f| - 1], g) + Cross(f[|f| - 1], g)
  }

  lemma BothClauses(a: Assignment, c: Clause, d: Clause)
    ensures Satisfies(a, c + d) <==> Satisfies(a, c) || Satisfies(a, d)
  {
    forall l ensures l in c + d <==> l in c || l in d {}
  }

  lemma {:induction false} CrossMeans(a: Assignment, c: Clause, g: Formula)
    ensures Models(a, Cross(c, g)) <==> Satisfies(a, c) || Models(a, g)
  {
    hide Satisfies;
    if g != [] {
      var n := |g| - 1;
      CrossMeans(a, c, g[..n]);
      BothClauses(a, c, g[n]);
      OneClause(a, c + g[n]);
      OneClause(a, g[n]);
      assert g == g[..n] + [g[n]];
      ModelsConcat(a, g[..n], [g[n]]);
      ModelsConcat(a, Cross(c, g[..n]), [c + g[n]]);
    }
  }

  lemma {:induction false} EitherMeans(a: Assignment, f: Formula, g: Formula)
    ensures Models(a, Either(f, g)) <==> Models(a, f) || Models(a, g)
  {
    hide Satisfies;
    if f != [] {
      var n := |f| - 1;
      EitherMeans(a, f[..n], g);
      CrossMeans(a, f[n], g);
      OneClause(a, f[n]);
      assert f == f[..n] + [f[n]];
      ModelsConcat(a, f[..n], [f[n]]);
      ModelsConcat(a, Either(f[..n], g), Cross(f[n], g));
    }
  }

  lemma {:induction false} CrossOver(c: Clause, g: Formula, n: int, x: int)
    requires ClauseOver(c, n, x) && Over(g, n, x)
    ensures Over(Cross(c, g), n, x)
  {
    if g != [] {
      var m := |g| - 1;
      CrossOver(c, g[..m], n, x);
      assert ClauseOver(g[m], n, x);
      assert ClauseOver(c + g[m], n, x);
    }
  }

  lemma {:induction false} EitherOver(f: Formula, g: Formula, n: int, x: int)
    requires Over(f, n, x) && Over(g, n, x)
    ensures Over(Either(f, g), n, x)
  {
    if f != [] {
      var m := |f| - 1;
      EitherOver(f[..m], g, n, x);
      assert ClauseOver(f[m], n, x);
      CrossOver(f[m], g, n, x);
    }
  }

  // ----- forgetting the bad literal -------------------------------------------------------------

  /** The logic without the variable x: it holds when some value of x makes the logic hold. */
  ghost function Forget(f: Formula, x: int): Formula {
    Either(Assume(f, x), Assume(f, -x))
  }

  lemma ForgetMeans(a: Assignment, f: Formula, x: int)
    requires x > 0
    ensures Models(a, Forget(f, x)) <==> Models(a + iset{x}, f) || Models(a - iset{x}, f)
  {
    AssumeMeans(a, f, x);
    AssumeMeans(a, f, -x);
    EitherMeans(a, Assume(f, x), Assume(f, -x));
  }

  lemma {:induction false} AndsOver(c: Aiger, rank: seq<nat>, s: iset<int>, n: nat)
    requires WellFormed(c, rank) && n <= |c.ands|
    ensures Over(AndClauses(c, s, n), c.maxvar + 1, 0)
  {
    if n > 0 {
      AndsOver(c, rank, s, n - 1);
      var g := c.ands[n - 1];
      assert Gate(c, rank, g);
      AndGateOver(c, Prep(g.lhs), Prep(g.rhs0), Prep(g.rhs1));
    }
  }

  lemma AndGateOver(c: Aiger, l: int, r0: int, r1: int)
    requires 1 <= Abs(l) <= c.maxvar + 1 && 1 <= Abs(r0) <= c.maxvar + 1 && 1 <= Abs(r1) <= c.maxvar + 1
    ensures Over(AndGate(l, r0, r1), c.maxvar + 1, 0)
  {
    var f := AndGate(l, r0, r1);
    assert f[0] == [-l, r0] && f[1] == [-l, r1] && f[2] == [-r0, -r1, l];
  }

  lemma LogicOver(c: Aiger, rank: seq<nat>, s: iset<int>)
    requires WellFormed(c, rank)
    ensures Over(Logic(c, s), c.maxvar + 1, 0)
  {
    hide WellFormed;
    AndsOver(c, rank, s, |c.ands|);
    assert ClauseOver([-1], c.maxvar + 1, 0);
  }

  // ----- the condition on the circuit ---------------------------------------------------------

  /** What the later time steps see of a valuation: the constant, the latches of the cone and what feeds them. */
  ghost predicate Alike(c: Aiger, s: iset<int>, v: Valuation, w: Valuation) {
    && (0 in s ==> (0 in v <==> 0 in w))
    && forall i :: 0 <= i < |c.latches| && Var(c.latches[i].lit) in s ==>
         && (Var(c.latches[i].lit) in v <==> Var(c.latches[i].lit) in w)
         && (Var(c.latches[i].next) in v <==> Var(c.latches[i].next) in w)
  }

  /** Whatever the rest of the circuit shows, the bad literal can have either value. */
  ghost predicate BadIsFree(c: Aiger) {
    forall w :: Settled(c, Cone(c), w) ==> CanSwitch(c, w)
  }

  ghost predicate CanSwitch(c: Aiger, w: Valuation) {
    exists v :: Settled(c, Cone(c), v) && Alike(c, Cone(c), w, v) && (Var(c.bad) in v <==> Var(c.bad) !in w)
  }

  /** The untimed variable of the bad literal. */
  function BadVar(c: Aiger): int { Abs(Prep(c.bad)) }

  /** Seen as circuit variables. */
  lemma InLower(a: Assignment, u: nat)
    ensures Var(u) in Lower(a) <==> Abs(Prep(u)) in a
  {
    assert NextIn(a, Var(u)) <==> Abs(Prep(u)) in a;
  }

  /** Agreement on the frozen variables but the bad one. */
  ghost predicate AgreeElse(c: Aiger, a: Assignment, b: Assignment) {
    forall x :: Frozen(c, Cone(c), false, x) && x != BadVar(c) ==> (x in a <==> x in b)
  }

  /** The circuit gives the bad literal no number: it is no input, no latch, and feeds none. */
  ghost predicate Nameless(c: Aiger) {
    !Wanted(c, Cone(c), [], BadVar(c))
  }

  lemma AlikeAgree(c: Aiger, a: Assignment, b: Assignment)
    requires Nameless(c)
    requires 0 in Cone(c) ==> 0 !in Lower(a) && 0 !in Lower(b)
    ensures AgreeElse(c, a, b) ==> Alike(c, Cone(c), Lower(a), Lower(b))
    ensures Alike(c, Cone(c), Lower(a), Lower(b)) ==> AgreeElse(c, a, b)
  {
    hide Cone;
    var s := Cone(c);
    forall u: nat ensures Var(u) in Lower(a) <==> Abs(Prep(u)) in a { InLower(a, u); }
    forall u: nat ensures Var(u) in Lower(b) <==> Abs(Prep(u)) in b { InLower(b, u); }
    hide Lower;
    if AgreeElse(c, a, b) {
      forall i | 0 <= i < |c.latches| && Var(c.latches[i].lit) in s
        ensures (Var(c.latches[i].lit) in Lower(a) <==> Var(c.latches[i].lit) in Lower(b))
             && (Var(c.latches[i].next) in Lower(a) <==> Var(c.latches[i].next) in Lower(b))
      {
        assert Frozen(c, s, false, Abs(Prep(c.latches[i].lit))) && Frozen(c, s, false, Abs(Prep(c.latches[i].next)));
      }
    }
    if Alike(c, s, Lower(a), Lower(b)) {
      assert Abs(Prep(0)) == 1;
      forall x | Frozen(c, s, false, x) && x != BadVar(c) ensures x in a <==> x in b {}
    }
  }

  lemma SettledModels(c: Aiger, rank: seq<nat>, w: Valuation)
    requires WellFormed(c, rank)
    ensures Settled(c, Cone(c), w) <==> Models(Lift(w), Logic(c, Cone(c)))
  {
    hide Cone, Logic;
    AndsEven(c, rank);
    LogicMeans(c, Cone(c), Lift(w));
    LiftLowers(w);
  }

  lemma ModelsSettled(c: Aiger, rank: seq<nat>, a: Assignment)
    requires WellFormed(c, rank)
    ensures Settled(c, Cone(c), Lower(a)) <==> Models(a, Logic(c, Cone(c)))
    ensures Models(a, Logic(c, Cone(c))) && 0 in Cone(c) ==> 0 !in Lower(a)
  {
    hide Cone, Logic;
    AndsEven(c, rank);
    LogicMeans(c, Cone(c), a);
  }

  /** Only mentioned variables matter. */
  lemma NotMentioned(g: Formula, x: int, a: Assignment, b: Assignment)
    requires forall i :: 0 <= i < |g| ==> !Mentions(g[i], x)
    requires forall y :: y != x ==> (y in a <==> y in b)
    requires x > 0 && forall i, j :: 0 <= i < |g| && 0 <= j < |g[i]| ==> 1 <= Abs(g[i][j])
    ensures Models(a, g) ==> Models(b, g)
  {
    if Models(a, g) {
      forall i | 0 <= i < |g| ensures Satisfies(b, g[i]) {
        assert Satisfies(a, g[i]);
        var l :| l in g[i] && Holds(a, l);
        var j :| 0 <= j < |g[i]| && g[i][j] == l;
        assert Abs(g[i][j]) != x;
        assert Holds(b, l);
      }
    }
  }

  /** If simplified clauses do without the bad literal, it is free. */
  lemma LostIsFree(c: Aiger, rank: seq<nat>, g: Formula)
    requires WellFormed(c, rank) && Simplified(c, Cone(c), false, g) && !Wanted(c, Cone(c), g, BadVar(c))
    ensures Nameless(c) && BadIsFree(c)
  {
    hide Cone, Logic, Models, Settled, WellFormed, Wanted, Alike, Frozen;
    NamelessPart(c, g);
    forall w | Settled(c, Cone(c), w) ensures CanSwitch(c, w) {
      SettledModels(c, rank, w);
      LiftLowers(w);
      var a := Lift(w);
      var b := ClausesOf(c, Cone(c), false, g, a);
      var x := BadVar(c);
      var flipped := if x in b then b - iset{x} else b + iset{x};
      NotMentioned(g, x, b, flipped);
      var a' := LogicOf(c, Cone(c), false, g, flipped);
      ModelsSettled(c, rank, a);
      ModelsSettled(c, rank, a');
      SwitchedElse(c, a, b, flipped, a');
      AlikeAgree(c, a, a');
      BadSame(c, a, b);
      BadSame(c, a', flipped);
      InLower(a, c.bad);
      InLower(a', c.bad);
      assert Settled(c, Cone(c), Lower(a')) && Alike(c, Cone(c), w, Lower(a'));
    }
  }

  lemma NamelessPart(c: Aiger, g: Formula)
    requires !Wanted(c, Cone(c), g, BadVar(c))
    ensures Nameless(c) && forall i :: 0 <= i < |g| ==> !Mentions(g[i], BadVar(c))
  {
    hide Cone;
  }

  lemma SwitchedElse(c: Aiger, a: Assignment, b: Assignment, d: Assignment, e: Assignment)
    requires Agree(c, Cone(c), false, a, b) && Agree(c, Cone(c), false, e, d)
    requires forall y :: y != BadVar(c) ==> (y in b <==> y in d)
    ensures AgreeElse(c, a, e)
  {
    hide Cone, Frozen;
  }

  lemma BadSame(c: Aiger, a: Assignment, b: Assignment)
    requires Agree(c, Cone(c), false, a, b)
    ensures BadVar(c) in a <==> BadVar(c) in b
  {
    hide Cone;
    assert Frozen(c, Cone(c), false, BadVar(c));
  }

  /** If the bad literal is free, forgetting it is a permitted simplification. */
  lemma FreeIsLost(c: Aiger, rank: seq<nat>) returns (g: Formula)
    requires WellFormed(c, rank) && Nameless(c) && BadIsFree(c)
    ensures Simplified(c, Cone(c), false, g) && !Wanted(c, Cone(c), g, BadVar(c))
  {
    hide Cone, Logic, Models, Settled, WellFormed, Wanted, Alike, Frozen, Forget;
    var s, x, f := Cone(c), BadVar(c), Logic(c, Cone(c));
    g := Forget(f, x);
    LogicOver(c, rank, s);
    ForgetOver(f, x, c.maxvar + 1);
    OverRange(g, c.maxvar + 1, x);
    forall a | Models(a, f) ensures exists b :: Agree(c, s, false, a, b) && Models(b, g) {
      ForgetMeans(a, f, x);
      SameUnlessChanged(a, x);
      assert Agree(c, s, false, a, a);
    }
    forall b | Models(b, g) ensures exists a :: Agree(c, s, false, a, b) && Models(a, f) {
      ForgetMeans(b, f, x);
      var a := Recovered(c, rank, b);
    }
    StillNameless(c, g);
  }

  lemma SameUnlessChanged(a: Assignment, x: int)
    ensures a + iset{x} == a || a - iset{x} == a
  {}

  lemma ForgetOver(f: Formula, x: int, n: int)
    requires Over(f, n, 0) && x > 0
    ensures Over(Forget(f, x), n, x)
  {
    AssumeOver(f, x, n);
    AssumeOver(f, -x, n);
    EitherOver(Assume(f, x), Assume(f, -x), n, x);
  }

  lemma OverRange(g: Formula, n: int, x: int)
    requires Over(g, n, x)
    ensures forall i, j :: 0 <= i < |g| && 0 <= j < |g[i]| ==> 1 <= Abs(g[i][j]) <= n
    ensures forall i :: 0 <= i < |g| ==> !Mentions(g[i], x)
  {
    forall i | 0 <= i < |g| ensures forall j :: 0 <= j < |g[i]| ==> 1 <= Abs(g[i][j]) <= n && Abs(g[i][j]) != x {
      assert ClauseOver(g[i], n, x);
      forall j | 0 <= j < |g[i]| ensures 1 <= Abs(g[i][j]) <= n && Abs(g[i][j]) != x { assert g[i][j] in g[i]; }
    }
  }

  lemma StillNameless(c: Aiger, g: Formula)
    requires Nameless(c) && forall i :: 0 <= i < |g| ==> !Mentions(g[i], BadVar(c))
    ensures !Wanted(c, Cone(c), g, BadVar(c))
  {
    hide Cone, Mentions;
  }

  /** An assignment of the logic that looks like b. */
  lemma Recovered(c: Aiger, rank: seq<nat>, b: Assignment) returns (a: Assignment)
    requires WellFormed(c, rank) && Nameless(c) && BadIsFree(c)
    requires Models(b + iset{BadVar(c)}, Logic(c, Cone(c))) || Models(b - iset{BadVar(c)}, Logic(c, Cone(c)))
    ensures Agree(c, Cone(c), false, a, b) && Models(a, Logic(c, Cone(c)))
  {
    hide Cone, Logic, Models, Settled, WellFormed, Wanted, Alike, Frozen;
    var x := BadVar(c);
    var d := if Models(b + iset{x}, Logic(c, Cone(c))) then b + iset{x} else b - iset{x};
    if x in d <==> x in b {
      assert d == b;
      a := d;
      assert Agree(c, Cone(c), false, a, b);
    } else {
      ModelsSettled(c, rank, d);
      assert CanSwitch(c, Lower(d));
      var v :| Settled(c, Cone(c), v) && Alike(c, Cone(c), Lower(d), v) && (Var(c.bad) in v <==> Var(c.bad) !in Lower(d));
      a := Lift(v);
      SettledModels(c, rank, v);
      LiftLowers(v);
      ModelsSettled(c, rank, a);
      AlikeAgree(c, d, a);
      InLower(d, c.bad);
      InLower(a, c.bad);
      AgreeBoth(c, d, a, b);
    }
  }

  lemma AgreeBoth(c: Aiger, d: Assignment, a: Assignment, b: Assignment)
    requires AgreeElse(c, d, a) && (BadVar(c) in a <==> BadVar(c) in b)
    requires forall y :: y != BadVar(c) ==> (y in d <==> y in b)
    ensures Agree(c, Cone(c), false, a, b)
  {
    hide Cone, Frozen;
  }

  /** Without frozen inputs a permitted simplification can leave the bad literal without number
      exactly if the circuit gives it none and it is free. */
  lemma UnnumberedExactly(c: Aiger, rank: seq<nat>)
    requires WellFormed(c, rank)
    ensures (exists g :: Simplified(c, Cone(c), false, g) && !Wanted(c, Cone(c), g, BadVar(c))) <==> Nameless(c) && BadIsFree(c)
  {
    hide Simplified, Wanted, Cone, WellFormed, Nameless, BadIsFree;
    if g :| Simplified(c, Cone(c), false, g) && !Wanted(c, Cone(c), g, BadVar(c)) {
      LostIsFree(c, rank, g);
    }
    if Nameless(c) && BadIsFree(c) {
      var g := FreeIsLost(c, rank);
    }
  }
}
