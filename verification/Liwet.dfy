/** The weighted local search: clause weights, the sums and candidate variables
    kept for them, flips of positive gain, and weight transfers in between. */
module Liwet {
  import opened Cnf
  import opened Finite
  import opened Occurrences
  import opened Tally
  import opened Search
  import opened Weights
  import opened Transfer
  import Runs = WeightedRuns

  // ----- the candidate variables, a stack with positions ---------------------------

  ghost predicate Stacked(n: nat, uvars: seq<int>, pos: seq<int>) {
    && |pos| == n
    && (forall i :: 0 <= i < |uvars| ==> 1 <= uvars[i] < n && pos[uvars[i]] == i)
    && (forall v :: 1 <= v < n ==> pos[v] == -1 || (0 <= pos[v] < |uvars| && uvars[pos[v]] == v))
  }

  predicate IsCandidate(pos: seq<int>, v: int) {
    0 <= v < |pos| && pos[v] != -1
  }

  /** The candidates are the variables of falsified clauses. */
  ghost predicate Exact(n: nat, pos: seq<int>, count: seq<int>) {
    && |pos| == |count| == n
    && forall v :: 1 <= v < n ==> (IsCandidate(pos, v) <==> count[v] > 0)
  }

  ghost predicate HasVar(c: Clause, v: int) {
    v in c || -v in c
  }

  lemma Shared(c: Clause, d: Clause, l: int)
    requires l in c && l in d
    ensures Runs.Neighbours(c, d)
  {}

  class WeightedSearch {
    const n: nat
    const f: Formula
    const lists: seq<seq<int>>          // where each literal occurs
    const vals: array<bool>
    const satcnt: array<int>
    const crit: array<int>
    const clauseWeights: array<real>
    const unsatWeights: array<real>
    const sat1Weights: array<real>
    const varUnsatCount: array<int>
    const uvarPos: array<int>
    var uvars: seq<int>
    var uwrvs: seq<int>                 // true literals whose flip has a positive gain
    var nonIncreasing: seq<int>         // and those with gain zero
    var bestVar: int
    var bestWeight: real
    var flips: nat

    ghost predicate Wired() {
      && Sized() && AllNormalised(f, n) && |lists| == 2 * n
      && forall l :: IsLit(l, n) ==> lists[Ref(l)] == Occs(f, l)
    }

    ghost predicate Sized() {
      && vals.Length == varUnsatCount.Length == uvarPos.Length == n && satcnt.Length == crit.Length == clauseWeights.Length == |f|
      && unsatWeights.Length == sat1Weights.Length == 2 * n
      && satcnt != crit && satcnt != varUnsatCount && satcnt != uvarPos && crit != varUnsatCount && crit != uvarPos
      && varUnsatCount != uvarPos && clauseWeights != unsatWeights && clauseWeights != sat1Weights && unsatWeights != sat1Weights
    }

    ghost predicate Weighted()
      reads satcnt, crit, clauseWeights, unsatWeights, sat1Weights, varUnsatCount
    {
      Kept(f, n, satcnt[..], crit[..], clauseWeights[..], unsatWeights[..], sat1Weights[..], varUnsatCount[..])
    }

    ghost predicate Candidates()
      reads `uvars, uvarPos, varUnsatCount
    {
      Stacked(n, uvars, uvarPos[..]) && Exact(n, uvarPos[..], varUnsatCount[..])
    }

    /** All incremental state equals its recomputation from the assignment. */
    ghost predicate Synced()
      reads `uvars, vals, satcnt, crit, clauseWeights, unsatWeights, sat1Weights, varUnsatCount, uvarPos
    {
      Wired() && Counted(f, vals[..], satcnt[..], crit[..]) && Weighted() && Candidates()
    }

    /** The same while a flip from v to w is under way. */
    ghost predicate Moving(v: seq<bool>, w: seq<bool>, done: set<int>)
      reads `uvars, satcnt, crit, clauseWeights, unsatWeights, sat1Weights, varUnsatCount, uvarPos
    {
      Wired() && |v| == n && Midway(f, v, w, done, satcnt[..], crit[..]) && Weighted() && Candidates()
    }

    constructor (n: nat, f: Formula, lists: seq<seq<int>>)
      requires AllNormalised(f, n) && |lists| == 2 * n && forall l :: IsLit(l, n) ==> lists[Ref(l)] == Occs(f, l)
      ensures Wired() && this.n == n && this.f == f && uvars == [] && flips == 0
      ensures forall c :: 0 <= c < |f| ==> clauseWeights[c] == BASE_WEIGHT
    {
      this.n, this.f, this.lists := n, f, lists;
      vals := new bool[n](_ => false);
      satcnt := new int[|f|](_ => 0);
      crit := new int[|f|](_ => 0);
      clauseWeights := new real[|f|](_ => BASE_WEIGHT);
      unsatWeights := new real[2 * n](_ => 0.0);
      sat1Weights := new real[2 * n](_ => 0.0);
      varUnsatCount := new int[n](_ => 0);
      uvarPos := new int[n](_ => -1);
      uvars, uwrvs, nonIncreasing, bestVar, bestWeight, flips := [], [], [], 0, 0.0, 0;
    }

    // ----- the candidate variables -----------------------------------------------------

    method AddVar(v: int)
      requires Sized() && 1 <= v < n && Stacked(n, uvars, uvarPos[..])
      modifies `uvars, uvarPos
      ensures Stacked(n, uvars, uvarPos[..])
      ensures forall x :: 1 <= x < n ==> (IsCandidate(uvarPos[..], x) <==> old(IsCandidate(uvarPos[..], x)) || x == v)
    {
      if uvarPos[v] == -1 {
        uvars := uvars + [v];
        uvarPos[v] := |uvars| - 1;
      }
    }

    method DeleteVar(v: int)
      requires Sized() && 1 <= v < n && Stacked(n, uvars, uvarPos[..])
      modifies `uvars, uvarPos
      ensures Stacked(n, uvars, uvarPos[..])
      ensures forall x :: 1 <= x < n ==>
                (IsCandidate(uvarPos[..], x) <==> old(IsCandidate(uvarPos[..], x)) && (x != v || varUnsatCount[x] != 0))
    {
      if uvarPos[v] > -1 && varUnsatCount[v] == 0 {
        var removePos := uvarPos[v];
        var topElement := uvars[|uvars| - 1];
        uvars := uvars[removePos := topElement];
        uvarPos[topElement] := removePos;
        uvars := uvars[..|uvars| - 1];
        uvarPos[v] := -1;
      }
    }

    method AddVars(cidx: nat)
      requires Wired() && cidx < |f| && Stacked(n, uvars, uvarPos[..])
      modifies `uvars, uvarPos
      ensures Stacked(n, uvars, uvarPos[..])
      ensures forall x :: 1 <= x < n ==> (IsCandidate(uvarPos[..], x) <==> old(IsCandidate(uvarPos[..], x)) || HasVar(f[cidx], x))
    {
      assert Normalised(f[cidx], n);
      for p := 0 to |f[cidx]|
        invariant Stacked(n, uvars, uvarPos[..])
        invariant forall x :: 1 <= x < n ==>
                    (IsCandidate(uvarPos[..], x) <==> old(IsCandidate(uvarPos[..], x)) || HasVar(f[cidx][..p], x))
      {
        AddVar(Abs(f[cidx][p]));
        assert f[cidx][..p + 1] == f[cidx][..p] + [f[cidx][p]];
      }
      assert f[cidx][..|f[cidx]|] == f[cidx];
    }

    method DeleteVars(cidx: nat)
      requires Wired() && cidx < |f| && Stacked(n, uvars, uvarPos[..])
      modifies `uvars, uvarPos
      ensures Stacked(n, uvars, uvarPos[..])
      ensures forall x :: 1 <= x < n ==>
                (IsCandidate(uvarPos[..], x) <==> old(IsCandidate(uvarPos[..], x)) && (!HasVar(f[cidx], x) || varUnsatCount[x] != 0))
    {
      assert Normalised(f[cidx], n);
      for p := 0 to |f[cidx]|
        invariant Stacked(n, uvars, uvarPos[..])
        invariant forall x :: 1 <= x < n ==>
                    (IsCandidate(uvarPos[..], x) <==>
                     old(IsCandidate(uvarPos[..], x)) && (!HasVar(f[cidx][..p], x) || varUnsatCount[x] != 0))
      {
        DeleteVar(Abs(f[cidx][p]));
        assert f[cidx][..p + 1] == f[cidx][..p] + [f[cidx][p]];
      }
      assert f[cidx][..|f[cidx]|] == f[cidx];
    }

    // ----- the weight sums ---------------------------------------------------------------

    /** Adds a weight to all literals of a clause, and counts its variables up or down. */
    method AddClause(cidx: nat, w: real, d: int)
      requires Wired() && cidx < |f|
      modifies unsatWeights, varUnsatCount
      ensures forall l :: IsLit(l, n) ==> unsatWeights[Ref(l)] == old(unsatWeights[Ref(l)]) + if l in f[cidx] then w else 0.0
      ensures forall v :: 0 <= v < n ==> varUnsatCount[v] == old(varUnsatCount[v]) + if HasVar(f[cidx], v) then d else 0
    {
      ghost var c := f[cidx];
      assert Normalised(c, n);
      for p := 0 to |f[cidx]|
        invariant forall l :: IsLit(l, n) ==> unsatWeights[Ref(l)] == old(unsatWeights[Ref(l)]) + if l in c[..p] then w else 0.0
        invariant forall v :: 0 <= v < n ==> varUnsatCount[v] == old(varUnsatCount[v]) + if HasVar(c[..p], v) then d else 0
      {
        var lt := f[cidx][p];
        NewVar(c, n, p);
        unsatWeights[Ref(lt)] := unsatWeights[Ref(lt)] + w;
        varUnsatCount[Abs(lt)] := varUnsatCount[Abs(lt)] + d;
      }
      assert c[..|c|] == c;
    }

    /** One literal more of the clause is true. */
    method IncSatCnt(cidx: nat, lit: int) returns (res: int)
      requires Sized() && cidx < |f|
      modifies satcnt, crit
      ensures res == old(satcnt[cidx]) && satcnt[..] == old(satcnt[..])[cidx := res + 1]
      ensures crit[..] == old(crit[..])[cidx := Xor(old(crit[cidx]), lit)]
    {
      res := satcnt[cidx];
      satcnt[cidx] := res + 1;
      crit[cidx] := Xor(crit[cidx], lit);
    }

    method DecSatCnt(cidx: nat, lit: int) returns (res: int)
      requires Sized() && cidx < |f|
      modifies satcnt, crit
      ensures res == old(satcnt[cidx]) - 1 && satcnt[..] == old(satcnt[..])[cidx := res]
      ensures crit[..] == old(crit[..])[cidx := Xor(old(crit[cidx]), lit)]
    {
      res := satcnt[cidx] - 1;
      satcnt[cidx] := res;
      crit[cidx] := Xor(crit[cidx], lit);
    }

    /** The weight sums follow a clause that has one more true literal. */
    method MakeWeights(cidx: nat, lit: int, res: int, ghost sat0: seq<int>, ghost crit0: seq<int>)
      requires Wired() && cidx < |f| && IsLit(lit, n)
      requires Kept(f, n, sat0, crit0, clauseWeights[..], unsatWeights[..], sat1Weights[..], varUnsatCount[..])
      requires CriticalOK(f, n, cidx, sat0, crit0) && sat0[cidx] == res
      requires satcnt[..] == sat0[cidx := res + 1] && crit[..] == crit0[cidx := Xor(crit0[cidx], lit)]
      modifies unsatWeights, sat1Weights, varUnsatCount
      ensures Weighted()
      ensures forall v :: 1 <= v < n ==> varUnsatCount[v] == old(varUnsatCount[v]) - if res == 0 && HasVar(f[cidx], v) then 1 else 0
    {
      hide Kept, Xor, Sum;
      ghost var uw0, s10, count0, w0 := unsatWeights[..], sat1Weights[..], varUnsatCount[..], clauseWeights[..];
      KeptSizes(f, n, sat0, crit0, w0, uw0, s10, count0);
      assert satcnt[cidx] == satcnt[..][cidx] == res + 1 && crit[cidx] == crit[..][cidx] == Xor(crit0[cidx], lit);
      var w := clauseWeights[cidx];
      if res == 0 {
        XorZero(lit);
        Bump(lit, w);
        AddClause(cidx, -w, -1);
      } else if res == 1 {
        var other := Xor(crit[cidx], lit);
        XorUndo(crit0[cidx], lit);
        Bump(other, -w);
      }
      forall l | IsLit(l, n)
        ensures LitMoves(f[cidx], sat0[cidx], crit0[cidx], w0[cidx], satcnt[cidx], crit[cidx], w0[cidx], uw0, s10, unsatWeights[..], sat1Weights[..], l)
      {
        RefFits(l, n);
      }
      forall v | 1 <= v < n ensures VarMoves(f[cidx], sat0[cidx], satcnt[cidx], count0, varUnsatCount[..], v) {
        assert HasVar(f[cidx], v) <==> v in f[cidx] || -v in f[cidx];
      }
      KeptUpdate(f, n, sat0, crit0, w0, uw0, s10, count0, cidx, satcnt[cidx], crit[cidx], w0[cidx],
                 unsatWeights[..], sat1Weights[..], varUnsatCount[..]);
      assert w0[cidx := w0[cidx]] == clauseWeights[..];
    }

    /** The weight sums follow a clause that has one true literal less. */
    method BreakWeights(cidx: nat, lit: int, res: int, ghost sat0: seq<int>, ghost crit0: seq<int>)
      requires Wired() && cidx < |f| && IsLit(lit, n)
      requires Kept(f, n, sat0, crit0, clauseWeights[..], unsatWeights[..], sat1Weights[..], varUnsatCount[..])
      requires sat0[cidx] == res + 1 && res >= 0
      requires satcnt[..] == sat0[cidx := res] && crit[..] == crit0[cidx := Xor(crit0[cidx], -lit)]
      requires (res == 0 ==> crit0[cidx] == -lit && crit[cidx] == 0) && (res == 1 ==> IsLit(crit[cidx], n))
      modifies unsatWeights, sat1Weights, varUnsatCount
      ensures Weighted()
      ensures forall v :: 1 <= v < n ==> varUnsatCount[v] == old(varUnsatCount[v]) + if res == 0 && HasVar(f[cidx], v) then 1 else 0
    {
      hide Kept, Xor, Sum;
      ghost var uw0, s10, count0, w0 := unsatWeights[..], sat1Weights[..], varUnsatCount[..], clauseWeights[..];
      KeptSizes(f, n, sat0, crit0, w0, uw0, s10, count0);
      assert satcnt[cidx] == satcnt[..][cidx] == res;
      var w := clauseWeights[cidx];
      if res == 1 {
        Bump(crit[cidx], w);
      } else if res == 0 {
        Bump(-lit, -w);
        AddClause(cidx, w, 1);
      }
      forall l | IsLit(l, n)
        ensures LitMoves(f[cidx], sat0[cidx], crit0[cidx], w0[cidx], satcnt[cidx], crit[cidx], w0[cidx], uw0, s10, unsatWeights[..], sat1Weights[..], l)
      {
        RefFits(l, n);
      }
      forall v | 1 <= v < n ensures VarMoves(f[cidx], sat0[cidx], satcnt[cidx], count0, varUnsatCount[..], v) {
        assert HasVar(f[cidx], v) <==> v in f[cidx] || -v in f[cidx];
      }
      KeptUpdate(f, n, sat0, crit0, w0, uw0, s10, count0, cidx, satcnt[cidx], crit[cidx], w0[cidx],
                 unsatWeights[..], sat1Weights[..], varUnsatCount[..]);
      assert w0[cidx := w0[cidx]] == clauseWeights[..];
    }

    /** The weight of the clauses that a literal holds alone changes. */
    method Bump(lit: int, w: real)
      requires Sized() && IsLit(lit, n)
      modifies sat1Weights
      ensures forall l :: IsLit(l, n) ==> sat1Weights[Ref(l)] == old(sat1Weights[Ref(l)]) + if l == lit then w else 0.0
    {
      forall l | IsLit(l, n) ensures 0 <= Ref(l) < 2 * n && (Ref(l) == Ref(lit) <==> l == lit) { RefFits(l, n); }
      sat1Weights[Ref(lit)] := sat1Weights[Ref(lit)] + w;
    }

    // ----- one flip ------------------------------------------------------------------------

    lemma CountsNonnegative()
      requires Weighted()
      ensures varUnsatCount.Length == n && forall v :: 1 <= v < n ==> varUnsatCount[v] >= 0
    {
      forall v | 1 <= v < n ensures varUnsatCount[v] >= 0 {
        assert VarKept(f, satcnt[..], varUnsatCount[..], v);
        CountedVar(f, satcnt[..], varUnsatCount[..], v);
      }
    }

    /** A clause that contains the literal just made true. */
    method MakeClause(cidx: nat, lit: int, ghost v: seq<bool>, ghost done: set<int>)
      requires IsLit(lit, n) && |v| == n && !True(v, lit) && Moving(v, Flipped(v, Abs(lit)), done)
      requires cidx < |f| && lit in f[cidx] && cidx !in done
      modifies `uvars, satcnt, crit, unsatWeights, sat1Weights, varUnsatCount, uvarPos
      ensures Moving(v, Flipped(v, Abs(lit)), done + {cidx})
    {
      hide Kept, Midway, Stacked, Xor, Wired;
      ghost var sat0, crit0 := satcnt[..], crit[..];
      MakeStep(f, v, lit, done, sat0, crit0, cidx);
      CountsNonnegative();
      WiredSizes();
      var res := IncSatCnt(cidx, lit);
      MakeWeights(cidx, lit, res, sat0, crit0);
      if res == 0 {
        CountsNonnegative();
        DeleteVars(cidx);
      }
    }

    lemma WiredSizes()
      requires Wired()
      ensures Sized()
    {}

    /** A clause that contains the literal just made false. */
    method BreakClause(cidx: nat, lit: int, ghost v: seq<bool>, ghost done: set<int>)
      requires IsLit(lit, n) && |v| == n && !True(v, lit) && Moving(v, Flipped(v, Abs(lit)), done)
      requires cidx < |f| && -lit in f[cidx] && lit !in f[cidx] && cidx !in done
      modifies `uvars, satcnt, crit, unsatWeights, sat1Weights, varUnsatCount, uvarPos
      ensures Moving(v, Flipped(v, Abs(lit)), done + {cidx})
    {
      hide Kept, Midway, Stacked, Xor, Wired;
      ghost var sat0, crit0 := satcnt[..], crit[..];
      BreakStep(f, v, lit, done, sat0, crit0, cidx);
      CountsNonnegative();
      WiredSizes();
      assert sat0[cidx] == satcnt[cidx] && crit0[cidx] == crit[cidx];
      var res := DecSatCnt(cidx, -lit);
      assert crit[cidx] == crit[..][cidx] == Xor(crit0[cidx], -lit);
      BreakWeights(cidx, lit, res, sat0, crit0);
      if res == 0 { AddVars(cidx); }
    }

    /** Visits the clauses of the literal just made true. */
    method MakeClauses(lit: int, ghost v: seq<bool>) returns (ghost done: set<int>)
      requires IsLit(lit, n) && |v| == n && !True(v, lit) && Moving(v, Flipped(v, Abs(lit)), {})
      modifies `uvars, satcnt, crit, unsatWeights, sat1Weights, varUnsatCount, uvarPos
      ensures Moving(v, Flipped(v, Abs(lit)), done)
      ensures forall c :: c in done <==> 0 <= c < |f| && lit in f[c]
    {
      hide Moving, Visited, Occs, IsOccurrence;
      done := {};
      ReadList(lit, v, Flipped(v, Abs(lit)), done);
      var list := lists[Ref(lit)];
      VisitedNone(list);
      for k := 0 to |list|
        invariant Moving(v, Flipped(v, Abs(lit)), done) && Visited(list, k, done)
      {
        ReadCell(lit, k, list[k]);
        VisitNext(f, lit, k, done);
        MakeClause(ClauseOf(list[k]), lit, v, done);
        done := done + {ClauseOf(list[k])};
      }
      VisitedAll(f, lit, done);
    }

    /** Visits the clauses of the literal just made false. */
    method BreakClauses(lit: int, ghost v: seq<bool>, ghost made: set<int>)
      requires IsLit(lit, n) && |v| == n && !True(v, lit) && Moving(v, Flipped(v, Abs(lit)), made)
      requires forall c :: c in made <==> 0 <= c < |f| && lit in f[c]
      modifies `uvars, satcnt, crit, unsatWeights, sat1Weights, varUnsatCount, uvarPos
      ensures exists done :: Moving(v, Flipped(v, Abs(lit)), done) && FlipVisited(lit, done)
    {
      hide Moving, Visited, Occs, IsOccurrence;
      ghost var done: set<int> := {};
      ReadList(-lit, v, Flipped(v, Abs(lit)), made);
      var list := lists[Ref(-lit)];
      VisitedNone(list);
      assert made + done == made;
      for k := 0 to |list|
        invariant Moving(v, Flipped(v, Abs(lit)), made + done) && Visited(list, k, done)
      {
        ReadCell(-lit, k, list[k]);
        VisitNext(f, -lit, k, done);
        OneSided(f, n, ClauseOf(list[k]), -lit);
        BreakClause(ClauseOf(list[k]), lit, v, made + done);
        assert made + done + {ClauseOf(list[k])} == made + (done + {ClauseOf(list[k])});
        done := done + {ClauseOf(list[k])};
      }
      VisitedAll(f, -lit, done);
      assert FlipVisited(lit, made + done);
    }

    ghost predicate FlipVisited(lit: int, done: set<int>) {
      forall c :: 0 <= c < |f| && (lit in f[c] || -lit in f[c]) ==> c in done
    }

    lemma ReadList(lit: int, v: seq<bool>, w: seq<bool>, done: set<int>)
      requires IsLit(lit, n) && Moving(v, w, done)
      ensures Ref(lit) < |lists| && lists[Ref(lit)] == Occs(f, lit) && AllNormalised(f, n)
    {
      RefFits(lit, n);
    }

    lemma ReadCell(lit: int, k: nat, cell: int)
      requires k < |Occs(f, lit)| && cell == Occs(f, lit)[k]
      ensures 0 <= ClauseOf(cell) < |f| && lit in f[ClauseOf(cell)]
    {
      OccListExact(f, lit, |f|);
    }

    /** The gain of making a false literal true. */
    function LitGain(t: int): real
      requires Sized() && IsLit(t, n)
      reads unsatWeights, sat1Weights
    {
      RefFits(t, n);
      RefFits(-t, n);
      Gain(unsatWeights[..], sat1Weights[..], t)
    }

    /** The total weight of the falsified clauses. */
    ghost function Falsity(): real
      requires Sized()
      reads satcnt, clauseWeights
    {
      Potential(satcnt[..], clauseWeights[..])
    }

    /** Makes the false literal lit true, and updates everything. */
    method Flip(lit: int)
      requires Synced() && IsLit(lit, n) && !True(vals[..], lit)
      modifies `uvars, vals, satcnt, crit, unsatWeights, sat1Weights, varUnsatCount, uvarPos
      ensures Synced() && vals[..] == Flipped(old(vals[..]), Abs(lit))
    {
      hide Kept, Candidates, AllNormalised, Occs, NumTrue, CritTrue;
      ghost var v := vals[..];
      StartFlip(f, v, Flipped(v, Abs(lit)), satcnt[..], crit[..]);
      assert Moving(v, Flipped(v, Abs(lit)), {});
      hide Moving, Counted, True;
      var x := Abs(lit);
      vals[x] := !vals[x];
      assert vals[..] == Flipped(v, Abs(lit));
      ghost var made := MakeClauses(lit, v);
      BreakClauses(lit, v, made);
      ghost var done :| Moving(v, Flipped(v, Abs(lit)), done) && FlipVisited(lit, done);
      Arrive(v, lit, done);
    }

    /** Flips a true literal to false. The weight of the falsified clauses drops by exactly the gain. */
    method FlipLiwet(trueLit: int)
      requires Synced() && IsLit(trueLit, n) && True(vals[..], trueLit)
      modifies `uvars, `flips, vals, satcnt, crit, unsatWeights, sat1Weights, varUnsatCount, uvarPos
      ensures Synced() && vals[..] == Flipped(old(vals[..]), Abs(trueLit)) && flips == old(flips) + 1
      ensures Falsity() == old(Falsity() - LitGain(-trueLit))
    {
      hide Kept, Candidates, AllNormalised, Counted, Occs, Potential;
      ghost var v, lit := vals[..], -trueLit;
      ghost var sat0, crit0, uw0, s10, w0 := satcnt[..], crit[..], unsatWeights[..], sat1Weights[..], clauseWeights[..];
      KeptLit(lit);
      KeptLit(-lit);
      flips := flips + 1;
      Flip(-trueLit);
      GainExact(f, v, sat0, crit0, satcnt[..], crit[..], w0, uw0, s10, lit);
    }

    lemma KeptLit(lit: int)
      requires Weighted() && IsLit(lit, n)
      ensures LitKept(f, satcnt[..], crit[..], clauseWeights[..], unsatWeights[..], sat1Weights[..], lit)
    {}

    lemma Arrive(v: seq<bool>, lit: int, done: set<int>)
      requires IsLit(lit, n) && |v| == n && !True(v, lit) && Moving(v, Flipped(v, Abs(lit)), done) && FlipVisited(lit, done)
      ensures Wired() && Weighted() && Candidates() && Counted(f, Flipped(v, Abs(lit)), satcnt[..], crit[..])
    {
      hide Kept, Stacked, Exact;
      FlipDone(f, v, lit, done, satcnt[..], crit[..]);
    }

    // ----- choosing the flip ------------------------------------------------------------------

    function TrueLit(v: int): int
      requires 0 <= v < vals.Length
      reads vals
    {
      if vals[v] then v else -v
    }

    function FlipGain(v: int): real
      requires Sized() && 1 <= v < n
      reads vals, unsatWeights, sat1Weights
    {
      LitGain(-TrueLit(v))
    }

    /** The gain of the i-th candidate. */
    ghost function GainAt(i: int): real
      reads `uvars, vals, unsatWeights, sat1Weights
    {
      if 0 <= i < |uvars| && Sized() && 1 <= uvars[i] < n then FlipGain(uvars[i]) else 0.0
    }

    ghost predicate IsAt(t: int, i: int)
      reads `uvars, vals
    {
      0 <= i < |uvars| && 0 <= uvars[i] < vals.Length && t == TrueLit(uvars[i])
    }

    /** The gains of the first i candidates: the literals us with a positive one,
        the literals zs with gain zero, and the best. */
    ghost predicate Ranked(i: nat, us: seq<int>, zs: seq<int>, best: int, weight: real)
      reads `uvars, vals, unsatWeights, sat1Weights
    {
      && i <= |uvars| && (forall j :: 0 <= j < |uvars| ==> 1 <= uvars[j] < n)
      && (forall t :: t in us ==> exists j :: 0 <= j < i && IsAt(t, j) && GainAt(j) > 0.0)
      && (forall t, j :: 0 <= j < i && IsAt(t, j) && GainAt(j) > 0.0 ==> t in us)
      && (forall t, j :: 0 <= j < i && IsAt(t, j) && GainAt(j) == 0.0 ==> t in zs)
      && (us == [] ==> best == 0 && weight < 0.0)
      && (us != [] ==> best in us && weight > 0.0 && exists j :: 0 <= j < i && IsAt(best, j) && weight == GainAt(j))
      && (forall j :: 0 <= j < i && GainAt(j) > 0.0 ==> GainAt(j) <= weight)
    }

    lemma OneLit(t: int, u: int, i: int)
      requires IsAt(t, i) && IsAt(u, i)
      ensures t == u
    {}

    /** One more candidate, with the true literal t. */
    lemma RankedNext(i: nat, us: seq<int>, zs: seq<int>, best: int, weight: real, t: int)
      requires Ranked(i, us, zs, best, weight) && i < |uvars| && IsAt(t, i)
      ensures var g := GainAt(i);
              && (g > 0.0 && weight < g ==> Ranked(i + 1, us + [t], zs, t, g))
              && (g > 0.0 && weight >= g ==> Ranked(i + 1, us + [t], zs, best, weight))
              && (g == 0.0 ==> Ranked(i + 1, us, zs + [t], best, weight))
              && (g < 0.0 ==> Ranked(i + 1, us, zs, best, weight))
    {
      forall u | IsAt(u, i) ensures u == t { OneLit(t, u, i); }
      hide IsAt, GainAt;
    }

    method DetermineUwvar(i: nat)
      requires Sized() && i < |uvars| && 1 <= uvars[i] < n && Ranked(i, uwrvs, nonIncreasing, bestVar, bestWeight)
      modifies `uwrvs, `nonIncreasing, `bestVar, `bestWeight
      ensures Ranked(i + 1, uwrvs, nonIncreasing, bestVar, bestWeight)
    {
      hide Ranked, LitGain;
      var v := uvars[i];
      var trueLit, flipGain := TrueLit(v), FlipGain(v);
      RankedNext(i, uwrvs, nonIncreasing, bestVar, bestWeight, trueLit);
      if flipGain > 0.0 {
        uwrvs := uwrvs + [trueLit];
        if bestWeight < flipGain {
          bestVar, bestWeight := trueLit, flipGain;
        }
      } else if flipGain == 0.0 {
        nonIncreasing := nonIncreasing + [trueLit];
      }
    }

    /** Collects the candidates whose flip has a positive gain, and the best of them. */
    method ComputeUwrvs()
      requires Synced()
      modifies `uwrvs, `nonIncreasing, `bestVar, `bestWeight
      ensures Synced() && Ranked(|uvars|, uwrvs, nonIncreasing, bestVar, bestWeight)
    {
      hide Kept, Counted, Exact, LitGain, FlipGain, TrueLit;
      uwrvs, nonIncreasing, bestVar, bestWeight := [], [], 0, -2147483648.0;
      for i := 0 to |uvars|
        invariant Synced() && Ranked(i, uwrvs, nonIncreasing, bestVar, bestWeight)
      {
        DetermineUwvar(i);
      }
    }

    // ----- moving weight -------------------------------------------------------------------------

    /** Moves weight from a satisfied to a falsified clause. The total stays, and
        the falsified clauses become heavier by what was moved. */
    method TransferToClause(sink: nat, source: nat, x: real)
      requires Synced() && sink < |f| && source < |f| && satcnt[sink] == 0 && satcnt[source] > 0
      modifies clauseWeights, unsatWeights, sat1Weights, varUnsatCount
      ensures Synced() && varUnsatCount[..] == old(varUnsatCount[..])
      ensures clauseWeights[..] == old(clauseWeights[..][source := clauseWeights[source] - x][sink := clauseWeights[sink] + x])
      ensures Sum(clauseWeights[..]) == old(Sum(clauseWeights[..])) && Falsity() == old(Falsity()) + x
    {
      hide Kept, Stacked, Counted, Sum, Potential, AllNormalised;
      ghost var w0, uw0, s10, count0 := clauseWeights[..], unsatWeights[..], sat1Weights[..], varUnsatCount[..];
      ghost var sat, cr := satcnt[..], crit[..];
      TransferConserves(sat, w0, source, sink, x);
      CritAt(source);
      clauseWeights[source] := clauseWeights[source] - x;
      if satcnt[source] == 1 { Bump(crit[source], -x); }
      ghost var w1, s11 := clauseWeights[..], sat1Weights[..];
      assert forall l :: IsLit(l, n) ==> s11[Ref(l)] == s10[Ref(l)] - if sat[source] == 1 && cr[source] == l then x else 0.0;
      Relieve(f, n, sat, cr, w0, uw0, s10, count0, source, x, s11);
      clauseWeights[sink] := clauseWeights[sink] + x;
      AddClause(sink, x, 0);
      Burden(f, n, sat, cr, w1, uw0, s11, count0, sink, x, unsatWeights[..]);
      assert count0 == varUnsatCount[..];
    }

    lemma CritAt(c: nat)
      requires Synced() && c < |f|
      ensures satcnt[c] == 1 ==> IsLit(crit[c], n)
    {
      assert CountedAt(f[c], vals[..], satcnt[..][c], crit[..][c]);
      if satcnt[c] == 1 { OneTrue(f[c], vals[..]); }
    }

    /** Among the satisfied clauses that share a literal with the sink, one of
        greatest weight that may give; -1 if there is none. */
    method FindSource(sink: nat, p: Policy) returns (source: int)
      requires Wired() && sink < |f|
      ensures source == -1 || Source(source, p)
      ensures source != -1 ==> Runs.Neighbours(f[sink], f[source])
      ensures forall d :: 0 <= d < |f| && Runs.Neighbours(f[sink], f[d]) && Source(d, p) ==>
                source != -1 && clauseWeights[d] <= clauseWeights[source]
    {
      hide Wired, Source, Runs.Neighbours, Occs;
      WiredSized();
      source := -1;
      ghost var seen: set<int> := {};
      for j := 0 to |f[sink]|
        invariant Best(source, p, seen)
        invariant forall d :: d in seen <==> 0 <= d < |f| && exists i :: 0 <= i < j && f[sink][i] in f[d]
      {
        var l := f[sink][j];
        LitOf(sink, j);
        ghost var before := seen;
        source, seen := ScanList(l, source, p, seen);
        assert forall d :: d in seen ==> d in before || l in f[d];
      }
      SeenAll(f[sink], seen);
    }

    /** Clause d is satisfied and heavy enough. */
    predicate Source(d: int, p: Policy)
      requires Sized()
      reads satcnt, clauseWeights
    {
      0 <= d < |f| && satcnt[d] > 0 && clauseWeights[d] >= Least(p)
    }

    /** The best source among the clauses seen. */
    ghost predicate Best(source: int, p: Policy, seen: set<int>)
      requires Sized()
      reads satcnt, clauseWeights
    {
      && (source == -1 || (source in seen && Source(source, p)))
      && forall d :: d in seen && Source(d, p) ==> source != -1 && clauseWeights[d] <= clauseWeights[source]
    }

    method ScanList(l: int, source0: int, p: Policy, ghost seen0: set<int>) returns (source: int, ghost seen: set<int>)
      requires Wired() && IsLit(l, n) && Best(source0, p, seen0)
      ensures Best(source, p, seen) && forall d :: d in seen <==> d in seen0 || (0 <= d < |f| && l in f[d])
    {
      hide Wired, Visited, Occs, IsOccurrence;
      WiredSized();
      ListAt(l);
      source, seen := source0, seen0;
      var list := lists[Ref(l)];
      ghost var done: set<int> := {};
      VisitedNone(list);
      for k := 0 to |list|
        invariant Best(source, p, seen) && Visited(list, k, done) && seen == seen0 + done
      {
        VisitNext(f, l, k, done);
        var d := ClauseOf(list[k]);
        InList(l, k);
        if satcnt[d] > 0 && clauseWeights[d] >= if source == -1 then Least(p) else clauseWeights[source] { source := d; }
        done, seen := done + {d}, seen + {d};
      }
      VisitedAll(f, l, done);
    }

    lemma WiredSized()
      requires Wired()
      ensures Sized()
    {}

    lemma LitOf(c: nat, j: nat)
      requires Wired() && c < |f| && j < |f[c]|
      ensures IsLit(f[c][j], n)
    {}

    lemma ListAt(l: int)
      requires Wired() && IsLit(l, n)
      ensures Ref(l) < |lists| && lists[Ref(l)] == Occs(f, l)
    {}

    lemma InList(l: int, k: nat)
      requires k < |Occs(f, l)|
      ensures 0 <= ClauseOf(Occs(f, l)[k]) < |f|
    {
      OccListExact(f, l, |f|);
    }

    lemma SeenAll(c: Clause, seen: set<int>)
      requires forall d :: d in seen <==> 0 <= d < |f| && exists i :: 0 <= i < |c| && c[i] in f[d]
      ensures forall d :: 0 <= d < |f| ==> (d in seen <==> Runs.Neighbours(c, f[d]))
    {
      forall d | 0 <= d < |f| && Runs.Neighbours(c, f[d]) ensures d in seen {
        var l :| l in c && l in f[d];
        var i :| 0 <= i < |c| && c[i] == l;
        assert c[i] in f[d];
      }
      forall d | 0 <= d < |f| && d in seen ensures Runs.Neighbours(c, f[d]) {
        var i :| 0 <= i < |c| && c[i] in f[d];
        Shared(c, f[d], c[i]);
      }
    }

    /** A clause that may give when it is drawn. */
    predicate MayDraw(d: int)
      requires Sized()
      reads satcnt, clauseWeights
    {
      0 <= d < |f| && satcnt[d] > 0 && clauseWeights[d] >= BASE_WEIGHT
    }

    /** No draw of a turn for its i-th falsified clause finds one that may give. */
    ghost predicate Dry(draw: (nat, nat, nat) -> int, t: nat, i: nat, draws: nat)
      requires Sized()
      reads satcnt, clauseWeights
    {
      forall k: nat :: k < draws ==> !MayDraw(draw(t, i, k))
    }

    /** Draws clauses until one is satisfied and has at least the base weight;
        -1 if the draws run out first. */
    method DrawSource(draw: (nat, nat, nat) -> int, t: nat, i: nat, draws: nat) returns (source: int)
      requires Sized()
      ensures if source == -1 then Dry(draw, t, i, draws)
              else MayDraw(source) && exists k: nat :: k < draws && source == draw(t, i, k) && Dry(draw, t, i, k)
    {
      for k := 0 to draws
        invariant Dry(draw, t, i, k)
      {
        var c := draw(t, i, k);
        if MayDraw(c) { return c; }
      }
      return -1;
    }

    /** A falsified clause receives weight from the best satisfied neighbour or, by
        chance or for want of one, from a drawn clause. No weight falls below zero
        if the options are moderate. */
    method TransferForClause(sink: nat, p: Policy, draw: (nat, nat, nat) -> int, t: nat, i: nat, draws: nat)
      returns (ok: bool, ghost source: int)
      requires Synced() && sink < |f| && satcnt[sink] == 0 && Allowed(p)
      modifies clauseWeights, unsatWeights, sat1Weights, varUnsatCount
      ensures Synced() && Sum(clauseWeights[..]) == old(Sum(clauseWeights[..]))
      ensures ok ==> old(Source(source, p)) && Falsity() == old(Falsity() + Amount(p, clauseWeights[source]))
      ensures ok ==> Gives(p, old(vals[..]), old(clauseWeights[..]), sink, source)
      ensures ok ==> clauseWeights[..] == Runs.Given(p, old(clauseWeights[..]), source, sink)
      ensures !ok ==> clauseWeights[..] == old(clauseWeights[..]) && Sized() && Dry(draw, t, i, draws)
      ensures old(Nonnegative(clauseWeights[..])) && Moderate(p) ==> Nonnegative(clauseWeights[..])
    {
      hide Synced, Wired, Sum, Potential, Amount, Moderate, Gives;
      SyncedWired();
      var d := FindSource(sink, p);
      var chance: bool := *;
      if d == -1 || chance { d := DrawSource(draw, t, i, draws); }
      source := d;
      if d == -1 { return false, d; }
      StaysNonnegative(clauseWeights[..], d, sink, p);
      GivesNow(p, sink, d);
      TransferToClause(sink, d, Amount(p, clauseWeights[d]));
      ok := true;
    }

    /** The clause is one that may give to the sink. */
    ghost predicate Gives(p: Policy, v: seq<bool>, w: seq<real>, sink: nat, d: int) {
      AllNormalised(f, |v|) && |w| == |f| && sink < |f| && 0 <= d < |f| && Runs.MayGive(f, v, w, p, sink, d)
    }

    lemma GivesNow(p: Policy, sink: nat, d: nat)
      requires Synced() && sink < |f| && d < |f| && satcnt[d] > 0
      requires clauseWeights[d] >= BASE_WEIGHT
               || (Source(d, p) && Runs.Neighbours(f[sink], f[d])
                   && forall e :: 0 <= e < |f| && Runs.Neighbours(f[sink], f[e]) && Source(e, p) ==> clauseWeights[e] <= clauseWeights[d])
      ensures Gives(p, vals[..], clauseWeights[..], sink, d)
    {
      hide Kept, Runs.Neighbours, Stacked, Exact;
      CountedSats(f, vals[..], satcnt[..], crit[..]);
      if clauseWeights[d] < BASE_WEIGHT {
        forall e | Runs.IsSource(f, vals[..], clauseWeights[..], p, e) && Runs.Neighbours(f[sink], f[e])
          ensures clauseWeights[..][e] <= clauseWeights[..][d]
        {
          assert Source(e, p);
        }
      }
    }

    lemma SyncedWired()
      requires Synced()
      ensures Wired() && Sized()
    {}

    lemma StaysNonnegative(w: seq<real>, source: nat, sink: nat, p: Policy)
      requires source < |w| && sink < |w| && source != sink && Allowed(p) && w[source] >= Least(p)
      ensures Nonnegative(w) && Moderate(p) ==>
                var x := Amount(p, w[source]); Nonnegative(w[source := w[source] - x][sink := w[sink] + x])
    {
      hide Amount, Moderate;
      if Nonnegative(w) && Moderate(p) {
        AmountNonnegative(p, w[source]);
        ModerateGives(p, w[source]);
        TransferNonnegative(w, source, sink, Amount(p, w[source]));
      }
    }

    /** Where the search stands, with clauses that still wait for weight. */
    ghost function Here(sinks: seq<nat>): Runs.Point
      reads vals, clauseWeights
    {
      Runs.Point(vals[..], clauseWeights[..], sinks)
    }

    /** Every falsified clause receives weight from a satisfied one. */
    method TransferWeights(sinks: seq<nat>, p: Policy, draw: (nat, nat, nat) -> int, t: nat, draws: nat)
      returns (ok: bool, ghost gifts: seq<Runs.Step>, ghost rest: seq<nat>)
      requires Synced() && Allowed(p) && forall i :: 0 <= i < |sinks| ==> sinks[i] < |f| && satcnt[sinks[i]] == 0
      modifies clauseWeights, unsatWeights, sat1Weights, varUnsatCount
      ensures Synced() && Sum(clauseWeights[..]) == old(Sum(clauseWeights[..]))
      ensures old(Nonnegative(clauseWeights[..])) && Moderate(p) ==> Nonnegative(clauseWeights[..])
      ensures Runs.Legal(f, p, old(Here(sinks)), gifts) && Runs.After(f, p, old(Here(sinks)), gifts) == Here(rest)
      ensures (ok <==> rest == []) && Runs.Turns(gifts) == 0
      ensures !ok ==> Sized() && exists i: nat :: Dry(draw, t, i, draws)
    {
      hide Synced, Wired, Sum, Amount, Moderate, Gives, Runs.Legal, Runs.After, Runs.Fits, Runs.Turns, Dry;
      SyncedWired();
      gifts, rest := [], sinks;
      FitsHere(sinks);
      NoSteps(p, sinks);
      NoTurns();
      for i := 0 to |sinks|
        invariant Synced() && Sum(clauseWeights[..]) == old(Sum(clauseWeights[..]))
        invariant old(Nonnegative(clauseWeights[..])) && Moderate(p) ==> Nonnegative(clauseWeights[..])
        invariant Runs.Legal(f, p, old(Here(sinks)), gifts) && Runs.After(f, p, old(Here(sinks)), gifts) == Here(rest) && rest == sinks[i..]
        invariant Runs.Turns(gifts) == 0
      {
        ghost var source, s := 0, Here(rest);
        FitsHere(rest);
        ok, source := TransferForClause(sinks[i], p, draw, t, i, draws);
        if !ok { return; }
        GiftEnabled(s, p, source);
        Runs.Extended(f, p, old(Here(sinks)), gifts, Runs.Gift(source));
        Runs.OneTurn(gifts, Runs.Gift(source));
        gifts, rest := gifts + [Runs.Gift(source)], rest[1..];
      }
      ok := true;
    }

    lemma NoTurns()
      ensures Runs.Turns([]) == 0
    {}

    lemma FitsHere(sinks: seq<nat>)
      requires Synced() && forall i :: 0 <= i < |sinks| ==> sinks[i] < |f| && satcnt[sinks[i]] == 0
      ensures Runs.Fits(f, Here(sinks))
    {
      hide Kept, Stacked, Exact;
      CountedSats(f, vals[..], satcnt[..], crit[..]);
    }

    lemma GiftEnabled(s: Runs.Point, p: Policy, source: nat)
      requires Runs.Fits(f, s) && s.sinks != [] && Gives(p, s.v, s.w, s.sinks[0], source)
      ensures Runs.Enabled(f, p, s, Runs.Gift(source))
      ensures Runs.Next(f, p, s, Runs.Gift(source)) == s.(w := Runs.Given(p, s.w, source, s.sinks[0]), sinks := s.sinks[1..])
    {}

    lemma NoSteps(p: Policy, sinks: seq<nat>)
      requires Runs.Fits(f, Here(sinks))
      ensures Runs.Legal(f, p, Here(sinks), []) && Runs.After(f, p, Here(sinks), []) == Here(sinks)
      ensures Runs.AtTrueMinima(f, p, Here(sinks), [])
    {}

    // ----- flipping until no candidate gains --------------------------------------------------

    ghost predicate Path(path: seq<seq<bool>>)
      reads vals, clauseWeights
    {
      && Descending(f, clauseWeights[..], n, path) && path != [] && path[|path| - 1] == vals[..]
    }

    lemma FalsityIsWeigh()
      requires Synced()
      ensures AllNormalised(f, n) && clauseWeights.Length == |f| && Falsity() == Weigh(f, vals[..], clauseWeights[..])
    {
      CountedSats(f, vals[..], satcnt[..], crit[..]);
    }

    lemma PathStart()
      requires Synced()
      ensures Path([vals[..]])
    {}

    lemma PathNext(path: seq<seq<bool>>, v: seq<bool>, before: real)
      requires Synced() && Descending(f, clauseWeights[..], n, path) && path != [] && path[|path| - 1] == v && |v| == n
      requires AllNormalised(f, n) && clauseWeights.Length == |f| && before == Weigh(f, v, clauseWeights[..]) && Falsity() < before
      ensures Path(path + [vals[..]])
    {
      hide Weigh, Kept, Counted;
      FalsityIsWeigh();
      DescendingNext(f, clauseWeights[..], n, path, vals[..]);
    }

    lemma BestGains()
      requires Synced() && Ranked(|uvars|, uwrvs, nonIncreasing, bestVar, bestWeight) && uwrvs != []
      ensures IsLit(bestVar, n) && True(vals[..], bestVar) && LitGain(-bestVar) == bestWeight > 0.0
    {
      hide Kept, Counted, LitGain, Exact;
      var j :| 0 <= j < |uvars| && IsAt(bestVar, j) && bestWeight == GainAt(j);
    }

    /** Flips best candidates until none gains. No assignment is visited twice,
        so this ends after less than 2^n flips. */
    method Descend()
      requires Synced()
      modifies `uwrvs, `nonIncreasing, `bestVar, `bestWeight, `uvars, `flips
      modifies vals, satcnt, crit, unsatWeights, sat1Weights, varUnsatCount, uvarPos
      ensures Synced() && Ranked(|uvars|, uwrvs, nonIncreasing, bestVar, bestWeight) && uwrvs == []
      ensures flips - old(flips) < Power2(n) && Falsity() <= old(Falsity())
    {
      hide Synced, Path, Ranked, LitGain, Potential, Descending, Weigh, True, Power2;
      SyncedSized();
      ghost var path := [vals[..]];
      PathStart();
      ghost var start := flips;
      PathBound(path);
      ComputeUwrvs();
      while uwrvs != []
        invariant Synced() && Path(path) && |path| == flips - start + 1 <= Power2(n)
        invariant Ranked(|uvars|, uwrvs, nonIncreasing, bestVar, bestWeight) && Falsity() <= old(Falsity())
        decreases Power2(n) - |path|
      {
        BestGains();
        FalsityIsWeigh();
        ghost var v, before := vals[..], Falsity();
        PathParts(path);
        FlipLiwet(bestVar);
        PathNext(path, v, before);
        path := path + [vals[..]];
        PathBound(path);
        ComputeUwrvs();
      }
    }

    lemma PathBound(path: seq<seq<bool>>)
      requires Path(path)
      ensures |path| <= Power2(n)
    {
      DescentBounded(f, clauseWeights[..], n, path);
    }

    lemma PathParts(path: seq<seq<bool>>)
      requires Path(path)
      ensures Descending(f, clauseWeights[..], n, path) && path != [] && path[|path| - 1] == vals[..] && vals.Length == n
    {}

    /** When no candidate gains, flipping x does not lower the weight exactly if x is a
        candidate or the clauses that its true literal holds alone weigh at least nothing. */
    lemma LocalMinimum(x: int)
      requires Synced() && Ranked(|uvars|, uwrvs, nonIncreasing, bestVar, bestWeight) && uwrvs == [] && 1 <= x < n
      ensures AllNormalised(f, n) && vals.Length == n && clauseWeights.Length == |f| && uvarPos.Length == n
      ensures Ref(TrueLit(x)) < sat1Weights.Length
      ensures Weigh(f, Flipped(vals[..], x), clauseWeights[..]) >= Weigh(f, vals[..], clauseWeights[..]) <==>
              IsCandidate(uvarPos[..], x) || sat1Weights[Ref(TrueLit(x))] >= 0.0
      ensures Nonnegative(clauseWeights[..]) ==>
                Weigh(f, Flipped(vals[..], x), clauseWeights[..]) >= Weigh(f, vals[..], clauseWeights[..])
    {
      hide Kept, Counted, Weigh, Potential, GainAt, IsAt, FlipGain;
      NoGain(x);
      FlipWeigh(x);
    }

    lemma NoGain(x: int)
      requires Synced() && Ranked(|uvars|, uwrvs, nonIncreasing, bestVar, bestWeight) && uwrvs == [] && 1 <= x < n
      ensures Ref(TrueLit(x)) < sat1Weights.Length
      ensures FlipGain(x) <= 0.0 <==> IsCandidate(uvarPos[..], x) || sat1Weights[Ref(TrueLit(x))] >= 0.0
      ensures Nonnegative(clauseWeights[..]) ==> FlipGain(x) <= 0.0
    {
      hide Kept, Counted;
      if IsCandidate(uvarPos[..], x) {
        var j := uvarPos[x];
        assert uvars[j] == x && IsAt(TrueLit(x), j) && GainAt(j) == FlipGain(x);
      } else {
        CountsNonnegative();
        OnlyCountedGain(f, n, satcnt[..], crit[..], clauseWeights[..], unsatWeights[..], sat1Weights[..], varUnsatCount[..], -TrueLit(x));
      }
    }

    lemma SyncedSized()
      requires Synced()
      ensures Sized()
    {}

    // ----- the search ------------------------------------------------------------------------------

    /** The falsified clauses. */
    method Falsifieds() returns (sinks: seq<nat>)
      requires Sized()
      ensures forall c :: c in sinks <==> 0 <= c < |f| && satcnt[c] == 0
      ensures forall i :: 0 <= i < |sinks| ==> sinks[i] < |f| && satcnt[sinks[i]] == 0
      ensures forall i, j :: 0 <= i < j < |sinks| ==> sinks[i] != sinks[j]
    {
      sinks := [];
      for c := 0 to |f|
        invariant forall d :: d in sinks <==> 0 <= d < c && satcnt[d] == 0
        invariant forall i :: 0 <= i < |sinks| ==> sinks[i] < c && satcnt[sinks[i]] == 0
        invariant forall i, j :: 0 <= i < j < |sinks| ==> sinks[i] != sinks[j]
      {
        if satcnt[c] == 0 { sinks := sinks + [c]; }
      }
    }

    /** Flips the best candidate, or moves weight when none gains, until every clause is
        satisfied. Every such loop is a run of the step system, so under safe options weights
        stay at least zero, and weight is moved at true local minima only. It ends unsolved
        only after as many turns as the budget allows, or when a round runs out of draws. */
    method InnerLoop(p: Policy, draw: (nat, nat, nat) -> int, draws: nat, budget: nat)
      returns (solved: bool, ghost steps: seq<Runs.Step>, ghost rest: seq<nat>)
      requires Synced() && Allowed(p)
      modifies `uwrvs, `nonIncreasing, `bestVar, `bestWeight, `uvars, `flips
      modifies vals, satcnt, crit, unsatWeights, sat1Weights, varUnsatCount, uvarPos, clauseWeights
      ensures Synced() && Sum(clauseWeights[..]) == old(Sum(clauseWeights[..]))
      ensures solved ==> forall c :: 0 <= c < |f| ==> satcnt[c] > 0
      ensures Runs.Turns(steps) <= budget && (!solved ==> Runs.Turns(steps) == budget || rest != [])
      ensures rest != [] ==> Sized() && exists t: nat, i: nat :: Dry(draw, t, i, draws)
      ensures Runs.Legal(f, p, old(Here([])), steps) && Runs.After(f, p, old(Here([])), steps) == Here(rest)
      ensures old(Runs.Secure(p, clauseWeights[..])) && Runs.Safe(p) ==> Runs.Secure(p, clauseWeights[..]) && Runs.AtTrueMinima(f, p, old(Here([])), steps)
    {
      hide Synced, Wired, Ranked, LitGain, Potential, Sum, True, Moderate, Amount, Runs.AtTrueMinima;
      hide Runs.Legal, Runs.After, Runs.Fits, Runs.Enabled, Runs.Next, Runs.Safe, Runs.Secure, Runs.Turns, Dry;
      SyncedWired();
      NoTurns();
      steps, rest := [], [];
      ghost var s := Here([]);
      FitsHere([]);
      NoSteps(p, []);
      for i := 0 to budget
        invariant Synced() && Sum(clauseWeights[..]) == old(Sum(clauseWeights[..]))
        invariant Runs.Legal(f, p, s, steps) && Runs.After(f, p, s, steps) == Here([]) && rest == []
        invariant Runs.Turns(steps) == i
        invariant Runs.Secure(p, s.w) && Runs.Safe(p) ==> Runs.Secure(p, clauseWeights[..]) && Runs.AtTrueMinima(f, p, s, steps)
      {
        var sinks := Falsifieds();
        if sinks == [] { TrueCounts(); return true, steps, rest; }
        ComputeUwrvs();
        var ok := true;
        if uwrvs != [] {
          BestGains();
          FlipEnabled(p);
          Runs.Extended(f, p, s, steps, Runs.Flip(Abs(bestVar)));
          Runs.OneTurn(steps, Runs.Flip(Abs(bestVar)));
          steps := steps + [Runs.Flip(Abs(bestVar))];
          FlipLiwet(bestVar);
        } else {
          RoundEnabled(p, sinks);
          Runs.Extended(f, p, s, steps, Runs.Round(sinks));
          Runs.OneTurn(steps, Runs.Round(sinks));
          steps := steps + [Runs.Round(sinks)];
          ghost var gifts;
          ok, gifts, rest := TransferWeights(sinks, p, draw, i, draws);
          Runs.Joined(f, p, s, steps, gifts);
          Runs.TurnsJoined(steps, gifts);
          steps := steps + gifts;
        }
        if Runs.Secure(p, s.w) && Runs.Safe(p) {
          Runs.RunSecure(f, p, s, steps);
          Runs.RunAtMinima(f, p, s, steps);
        }
        if !ok { return false, steps, rest; }
      }
      solved := false;
    }

    lemma CandidateIs(x: int)
      requires Synced() && 1 <= x < n
      ensures AllNormalised(f, vals.Length) && (Runs.Candidate(f, vals[..], x) <==> IsCandidate(uvarPos[..], x))
    {
      assert VarKept(f, satcnt[..], varUnsatCount[..], x);
      CountedVar(f, satcnt[..], varUnsatCount[..], x);
      CountedSats(f, vals[..], satcnt[..], crit[..]);
    }

    /** The gain in the sums is the gain in the step system. */
    lemma GainIs(x: int)
      requires Synced() && 1 <= x < n
      ensures Runs.Fits(f, Here([])) && Sized() && Runs.GainOf(f, Here([]), x) == FlipGain(x)
    {
      hide Kept, Counted, Weigh, Potential, FlipGain;
      FitsHere([]);
      FlipWeigh(x);
    }

    /** The gain in the sums is what the flip takes off the falsified clauses. */
    lemma FlipWeigh(x: int)
      requires Synced() && 1 <= x < n
      ensures Sized() && AllNormalised(f, vals.Length)
      ensures Weigh(f, vals[..], clauseWeights[..]) - Weigh(f, Flipped(vals[..], x), clauseWeights[..]) == FlipGain(x)
    {
      hide Kept, Counted, Weigh, Potential;
      var t := -TrueLit(x);
      FalsityIsWeigh();
      KeptLit(t);
      KeptLit(-t);
      SatsCounted(f, Flipped(vals[..], x));
      GainExact(f, vals[..], satcnt[..], crit[..], Sats(f, Flipped(vals[..], x)), Crits(f, Flipped(vals[..], x)),
                clauseWeights[..], unsatWeights[..], sat1Weights[..], t);
      WeighIs(f, Flipped(vals[..], x), clauseWeights[..]);
    }

    /** The gain of a candidate is among those ranked. */
    lemma RankedGain(x: int)
      requires Synced() && Ranked(|uvars|, uwrvs, nonIncreasing, bestVar, bestWeight) && 1 <= x < n && IsCandidate(uvarPos[..], x)
      ensures if uwrvs == [] then FlipGain(x) <= 0.0 else FlipGain(x) <= bestWeight
    {
      hide Kept, Counted;
      var j := uvarPos[x];
      assert uvars[j] == x && IsAt(TrueLit(x), j) && GainAt(j) == FlipGain(x);
    }

    lemma FlipEnabled(p: Policy)
      requires Synced() && Ranked(|uvars|, uwrvs, nonIncreasing, bestVar, bestWeight) && uwrvs != []
      ensures Runs.Fits(f, Here([])) && Runs.Enabled(f, p, Here([]), Runs.Flip(Abs(bestVar)))
      ensures Runs.Next(f, p, Here([]), Runs.Flip(Abs(bestVar))) == Here([]).(v := Flipped(vals[..], Abs(bestVar)))
    {
      hide Synced, Ranked, Runs.GainOf, Runs.Candidate, FlipGain;
      BestIs();
      SyncedWired();
      FitsHere([]);
      CandidateIs(Abs(bestVar));
      GainIs(Abs(bestVar));
      CandidatesRange();
      forall y | Runs.Candidate(f, vals[..], y) ensures Runs.GainOf(f, Here([]), y) <= bestWeight {
        CandidateIs(y);
        GainIs(y);
        RankedGain(y);
      }
    }

    lemma BestIs()
      requires Synced() && Ranked(|uvars|, uwrvs, nonIncreasing, bestVar, bestWeight) && uwrvs != []
      ensures 1 <= Abs(bestVar) < n && IsCandidate(uvarPos[..], Abs(bestVar)) && Sized()
      ensures FlipGain(Abs(bestVar)) == bestWeight > 0.0
    {
      hide Kept, Counted, LitGain;
      var j :| 0 <= j < |uvars| && IsAt(bestVar, j) && bestWeight == GainAt(j);
      assert Abs(bestVar) == uvars[j];
    }

    lemma CandidatesRange()
      requires AllNormalised(f, vals.Length)
      ensures forall x :: Runs.Candidate(f, vals[..], x) ==> 1 <= x < vals.Length
    {}

    lemma RoundEnabled(p: Policy, sinks: seq<nat>)
      requires Synced() && Ranked(|uvars|, uwrvs, nonIncreasing, bestVar, bestWeight) && uwrvs == [] && sinks != []
      requires forall c :: c in sinks <==> 0 <= c < |f| && satcnt[c] == 0
      requires forall i, j :: 0 <= i < j < |sinks| ==> sinks[i] != sinks[j]
      ensures Runs.Fits(f, Here([])) && Runs.Enabled(f, p, Here([]), Runs.Round(sinks))
      ensures Runs.Next(f, p, Here([]), Runs.Round(sinks)) == Here(sinks)
    {
      hide Kept, Ranked, Runs.GainOf, Runs.Candidate, FlipGain, Stacked, Exact;
      FitsHere([]);
      CountedSats(f, vals[..], satcnt[..], crit[..]);
      CandidatesRange();
      forall y | Runs.Candidate(f, vals[..], y) ensures Runs.GainOf(f, Here([]), y) <= 0.0 {
        CandidateIs(y);
        GainIs(y);
        RankedGain(y);
      }
    }

    lemma TrueCounts()
      requires Synced()
      ensures forall c :: 0 <= c < |f| ==> satcnt[c] >= 0
    {
      forall c | 0 <= c < |f| ensures satcnt[c] >= 0 { assert CountedAt(f[c], vals[..], satcnt[..][c], crit[..][c]); }
    }

    // ----- recounting after a restart ----------------------------------------------------------

    method ResetLiwet()
      requires Sized()
      modifies `uvars, unsatWeights, sat1Weights, varUnsatCount, uvarPos
      ensures uvars == [] && Candidates()
      ensures forall i :: 0 <= i < 2 * n ==> unsatWeights[i] == sat1Weights[i] == 0.0
      ensures forall v :: 0 <= v < n ==> varUnsatCount[v] == 0
    {
      uvars := [];
      for v := 0 to n
        invariant uvars == [] && forall i :: 0 <= i < v ==> varUnsatCount[i] == 0 && uvarPos[i] == -1
      {
        varUnsatCount[v], uvarPos[v] := 0, -1;
      }
      for i := 0 to 2 * n
        invariant uvars == []
        invariant forall i :: 0 <= i < n ==> varUnsatCount[i] == 0 && uvarPos[i] == -1
        invariant forall j :: 0 <= j < i ==> unsatWeights[j] == sat1Weights[j] == 0.0
      {
        unsatWeights[i], sat1Weights[i] := 0.0, 0.0;
      }
    }

    /** Counts the true literals of a clause. */
    method RecountClause(cidx: nat) returns (sat: int, x: int)
      requires Wired() && cidx < |f|
      ensures CountedAt(f[cidx], vals[..], sat, x)
    {
      ghost var c := f[cidx];
      TallyNothing(c, vals[..]);
      sat, x := 0, 0;
      for p := 0 to |f[cidx]|
        invariant LitsOver(c, n) && LitsOver(c[..p], n)
        invariant sat == NumTrue(c[..p], vals[..]) && x == CritTrue(c[..p], vals[..])
      {
        TallyStep(c, vals[..], p);
        var lit := f[cidx][p];
        if (lit > 0 && vals[lit]) || (lit < 0 && !vals[-lit]) {
          sat, x := sat + 1, Xor(x, lit);
        }
      }
      assert c[..|c|] == c;
    }

    /** The counters of the first i clauses; the others count as not yet there. */
    ghost function Upto(i: nat): (r: (seq<int>, seq<int>))
      requires i <= satcnt.Length == crit.Length
      reads satcnt, crit
      ensures |r.0| == |r.1| == satcnt.Length
    {
      (satcnt[..i] + seq(satcnt.Length - i, _ => -1), crit[..i] + seq(satcnt.Length - i, _ => 0))
    }

    ghost predicate Recounted(i: nat)
      reads `uvars, vals, satcnt, crit, clauseWeights, unsatWeights, sat1Weights, varUnsatCount, uvarPos
    {
      && Sized() && i <= |f| && Candidates()
      && (forall c :: 0 <= c < i ==> CountedAt(f[c], vals[..], satcnt[c], crit[c]))
      && Kept(f, n, Upto(i).0, Upto(i).1, clauseWeights[..], unsatWeights[..], sat1Weights[..], varUnsatCount[..])
    }

    /** Adds clause i to the sums, and its variables to the candidates if it is falsified. */
    method AddCounted(i: nat, sat: int, x: int)
      requires Wired() && Recounted(i) && i < |f| && CountedAt(f[i], vals[..], sat, x)
      modifies `uvars, satcnt, crit, unsatWeights, sat1Weights, varUnsatCount, uvarPos
      ensures Recounted(i + 1)
    {
      hide Kept, Xor, Sum, NumTrue, CritTrue, Stacked;
      ghost var (sat0, crit0) := Upto(i);
      ghost var uw0, s10, count0, w0 := unsatWeights[..], sat1Weights[..], varUnsatCount[..], clauseWeights[..];
      CountsAtLeastZero(sat0, crit0);
      satcnt[i], crit[i] := sat, x;
      var w := clauseWeights[i];
      if sat == 0 {
        AddClause(i, w, 1);
        AddVars(i);
      } else if sat == 1 {
        CritIsLit(f[i], vals[..], sat, x);
        Bump(x, w);
      }
      forall l | IsLit(l, n) ensures LitMoves(f[i], -1, 0, w0[i], sat, x, w0[i], uw0, s10, unsatWeights[..], sat1Weights[..], l) {
        RefFits(l, n);
      }
      forall v | 1 <= v < n ensures VarMoves(f[i], -1, sat, count0, varUnsatCount[..], v) {
        assert HasVar(f[i], v) <==> v in f[i] || -v in f[i];
      }
      KeptUpdate(f, n, sat0, crit0, w0, uw0, s10, count0, i, sat, x, w0[i], unsatWeights[..], sat1Weights[..], varUnsatCount[..]);
      assert w0[i := w0[i]] == clauseWeights[..];
      assert sat0[i := sat] == Upto(i + 1).0 && crit0[i := x] == Upto(i + 1).1;
    }

    lemma CountsAtLeastZero(sat0: seq<int>, crit0: seq<int>)
      requires Kept(f, n, sat0, crit0, clauseWeights[..], unsatWeights[..], sat1Weights[..], varUnsatCount[..])
      ensures varUnsatCount.Length == n && forall v :: 1 <= v < n ==> varUnsatCount[v] >= 0
    {
      forall v | 1 <= v < n ensures varUnsatCount[v] >= 0 {
        assert VarKept(f, sat0, varUnsatCount[..], v);
        CountedVar(f, sat0, varUnsatCount[..], v);
      }
    }

    /** Recomputes everything from the assignment. */
    method UpdateSatAndUnsat()
      requires Wired()
      modifies `uvars, satcnt, crit, unsatWeights, sat1Weights, varUnsatCount, uvarPos
      ensures Synced()
    {
      hide Kept, Wired, Stacked;
      WiredSizes();
      ResetLiwet();
      KeptNothing(f, n, Upto(0).0, Upto(0).1, clauseWeights[..], unsatWeights[..], sat1Weights[..], varUnsatCount[..]);
      for i := 0 to |f|
        invariant Wired() && Recounted(i)
      {
        hide Recounted;
        var sat, x := RecountClause(i);
        AddCounted(i, sat, x);
      }
      RecountedAll();
    }

    lemma RecountedAll()
      requires Wired() && Recounted(|f|)
      ensures Synced()
    {
      hide Kept;
      assert Upto(|f|).0 == satcnt[..] && Upto(|f|).1 == crit[..];
    }
  }

  lemma WeighIs(f: Formula, v: seq<bool>, w: seq<real>)
    requires AllNormalised(f, |v|) && |w| == |f|
    ensures Weigh(f, v, w) == Potential(Sats(f, v), w)
  {}

  lemma KeptSizes(f: Formula, n: nat, sat: seq<int>, crit: seq<int>, w: seq<real>, uw: seq<real>, s1: seq<real>, count: seq<int>)
    requires Kept(f, n, sat, crit, w, uw, s1, count)
    ensures |sat| == |crit| == |w| == |f| && |uw| == |s1| == 2 * n && |count| == n
  {}

  /** The next literal of a clause is a new one, of a new variable. */
  lemma NewVar(c: Clause, n: int, p: nat)
    requires Normalised(c, n) && p < |c|
    ensures IsLit(c[p], n) && Ref(c[p]) < 2 * n && 1 <= Abs(c[p]) < n
    ensures forall l :: l in c[..p + 1] <==> l in c[..p] || l == c[p]
    ensures c[p] !in c[..p] && !HasVar(c[..p], Abs(c[p]))
    ensures forall v :: HasVar(c[..p + 1], v) <==> HasVar(c[..p], v) || v == c[p] || -v == c[p]
    ensures forall l :: IsLit(l, n) && Ref(l) == Ref(c[p]) ==> l == c[p]
  {
    assert c[..p + 1] == c[..p] + [c[p]];
    forall v ensures HasVar(c[..p + 1], v) <==> HasVar(c[..p], v) || v == c[p] || -v == c[p] {
      assert -v in c[..p + 1] <==> -v in c[..p] || -v == c[p];
    }
  }
}
