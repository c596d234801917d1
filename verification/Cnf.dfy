/** Propositional formulas in conjunctive normal form, as every solver of the
    repository sees them: a literal is a non-zero integer, a clause a sequence
    of literals, an assignment the (possibly infinite) set of true variables. */
module Cnf {

  type Clause = seq<int>
  type Formula = seq<Clause>
  type Assignment = iset<int>

  ghost predicate Holds(a: Assignment, lit: int) {
    if lit > 0 then lit in a else -lit !in a
  }

  ghost predicate Satisfies(a: Assignment, c: Clause) {
    exists l :: l in c && Holds(a, l)
  }

  ghost predicate Models(a: Assignment, f: Formula) {
    forall i :: 0 <= i < |f| ==> Satisfies(a, f[i])
  }

  ghost predicate Unsatisfiable(f: Formula) {
    forall a :: !Models(a, f)
  }

  /** The two formulas have the same models. */
  ghost predicate Equivalent(f: Formula, g: Formula) {
    forall a :: Models(a, f) <==> Models(a, g)
  }

  ghost predicate Entails(f: Formula, lit: int) {
    forall a :: Models(a, f) ==> Holds(a, lit)
  }

  function Abs(i: int): (r: nat) {
    if i < 0 then -i else i
  }

  /** A literal over the variables 1 .. n-1. */
  predicate IsLit(lit: int, n: int) {
    lit != 0 && -n < lit < n
  }

  /** Position of a literal's cell in the tables indexed by literal. */
  function Ref(lit: int): nat {
    2 * Abs(lit) + if lit < 0 then 1 else 0
  }

  /** Neither a repeated literal nor a complementary pair. */
  predicate Normalised(c: Clause, n: int) {
    && (forall k :: 0 <= k < |c| ==> IsLit(c[k], n))
    && (forall j, k :: 0 <= j < k < |c| ==> c[j] != c[k] && c[j] != -c[k])
  }

  ghost predicate AllNormalised(f: Formula, n: int) {
    forall i :: 0 <= i < |f| ==> Normalised(f[i], n)
  }

  /** Clauses stored one after the other, each closed by a zero: clause i
      occupies positions starts[i] .. starts[i+1]-2 of the stack. */
  ghost predicate Layout(d: seq<int>, starts: seq<int>) {
    && |starts| > 0 && starts[0] == 0 && starts[|starts| - 1] == |d|
    && (forall i, j :: 0 <= i < j < |starts| ==> starts[i] < starts[j])
    && (forall i :: 0 <= i < |starts| - 1 ==> Cell(d, starts, i))
  }

  ghost predicate Cell(d: seq<int>, starts: seq<int>, i: nat)
    requires i < |starts| - 1
  {
    && 0 <= starts[i] < starts[i + 1] <= |d| && d[starts[i + 1] - 1] == 0
    && (forall k :: starts[i] <= k < starts[i + 1] - 1 ==> d[k] != 0)
  }

  ghost function ClauseAt(d: seq<int>, starts: seq<int>, i: nat): (c: Clause)
    requires Layout(d, starts) && i < |starts| - 1
    ensures Cell(d, starts, i) && |c| == starts[i + 1] - 1 - starts[i]
  {
    assert Cell(d, starts, i);
    d[starts[i]..starts[i + 1] - 1]
  }

  ghost function Clauses(d: seq<int>, starts: seq<int>): (f: Formula)
    requires Layout(d, starts)
    ensures |f| == |starts| - 1
  {
    seq(|starts| - 1, i requires 0 <= i < |starts| - 1 => ClauseAt(d, starts, i))
  }

  /** Pushing the literals of a clause and the closing zero appends that clause. */
  lemma LayoutAppend(d: seq<int>, starts: seq<int>, c: Clause)
    requires Layout(d, starts)
    requires forall k :: 0 <= k < |c| ==> c[k] != 0
    ensures Layout(d + c + [0], starts + [|d| + |c| + 1])
    ensures Clauses(d + c + [0], starts + [|d| + |c| + 1]) == Clauses(d, starts) + [c]
  {
    var e, t := d + c + [0], starts + [|d| + |c| + 1];
    forall i | 0 <= i < |t| - 1 ensures Cell(e, t, i) {
      if i < |starts| - 1 { assert Cell(d, starts, i); }
    }
    assert Layout(e, t);
    forall i | 0 <= i < |t| - 1 ensures Clauses(e, t)[i] == (Clauses(d, starts) + [c])[i] {
      if i < |starts| - 1 { assert ClauseAt(e, t, i) == ClauseAt(d, starts, i); }
      else { assert ClauseAt(e, t, i) == c; }
    }
  }

  /** A longer formula has fewer models. */
  lemma ModelsAppend(a: Assignment, f: Formula, c: Clause)
    ensures Models(a, f + [c]) <==> Models(a, f) && Satisfies(a, c)
  {
    if Models(a, f + [c]) {
      forall i | 0 <= i < |f| ensures Satisfies(a, f[i]) { assert (f + [c])[i] == f[i]; }
      assert (f + [c])[|f|] == c;
    }
  }

  lemma Disjoint(starts: seq<int>, i: nat, j: nat)
    requires forall x, y :: 0 <= x < y < |starts| ==> starts[x] < starts[y]
    requires i < |starts| - 1 && j < |starts| - 1
    ensures i < j ==> starts[i + 1] <= starts[j]
    ensures j < i ==> starts[j + 1] <= starts[i]
    ensures starts[i] == starts[j] ==> i == j
  {
  }

  lemma CellBounds(d: seq<int>, starts: seq<int>, i: nat)
    requires Layout(d, starts) && i < |starts| - 1
    ensures 0 <= starts[i] < starts[i + 1] <= |d|
  {
    assert Cell(d, starts, i);
  }

  /** Within a clause, only its last cell is zero. */
  lemma AtEnd(d: seq<int>, starts: seq<int>, i: nat, p: int)
    requires Layout(d, starts) && i < |starts| - 1 && starts[i] <= p < starts[i + 1]
    ensures 0 <= p < |d| && (d[p] == 0 <==> p == starts[i + 1] - 1)
  {
    assert Cell(d, starts, i);
  }

  lemma StartsEnd(d: seq<int>, starts: seq<int>, i: nat)
    requires Layout(d, starts) && i < |starts|
    ensures i < |starts| - 1 <==> starts[i] < |d|
    ensures 0 <= starts[i] <= |d| && (i == 0 ==> starts[i] == 0)
  {
  }

  /** What a read inside clause i finds. */
  lemma Read(d: seq<int>, starts: seq<int>, n: nat, i: nat, p: int)
    requires Layout(d, starts) && AllNormalised(Clauses(d, starts), n)
    requires i < |starts| - 1 && starts[i] <= p < starts[i + 1]
    ensures 0 <= p < |d| && (d[p] == 0 <==> p == starts[i + 1] - 1)
    ensures var c := Clauses(d, starts)[i];
            && |c| == starts[i + 1] - 1 - starts[i] && Normalised(c, n)
            && (p < starts[i + 1] - 1 ==> d[p] == c[p - starts[i]] && IsLit(d[p], n))
  {
    AtEnd(d, starts, i, p);
    var c := Clauses(d, starts)[i];
    assert c == ClauseAt(d, starts, i) && Normalised(c, n);
  }
}
