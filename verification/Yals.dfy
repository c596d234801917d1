/** The solver as its callers see it: add literals, solve, read the assignment. */
module Yals {
  import opened Cnf
  import opened Propagation
  import opened Occurrences
  import opened Tally
  import opened Unsat
  import opened Search
  import opened History
  import Luby

  const INT_MIN := -0x8000_0000
  const MAX_CLAUSES := 0x1ff_ffff

  predicate IsInt(x: int) { INT_MIN <= x <= INT_MAX }

  /** A clause with a literal and its negation. */
  ghost predicate Tautology(c: Clause) {
    exists l :: l in c && l != 0 && -l in c
  }

  /** Zero closes a clause and is in none. */
  ghost predicate NoZeros(f: Formula) {
    forall i :: 0 <= i < |f| ==> 0 !in f[i]
  }

  /** Marks tell the sign with which each variable occurs in the clause. */
  ghost predicate MarksOf(mark: seq<int>, c: Clause) {
    && (forall k :: 0 <= k < |c| ==> c[k] != 0 && Abs(c[k]) < |mark|)
    && (forall i :: 0 < i < |mark| ==> -1 <= mark[i] <= 1)
    && (forall i :: 0 < i < |mark| ==> (mark[i] == 1 <==> i in c))
    && (forall i :: 0 < i < |mark| ==> (mark[i] == -1 <==> -i in c))
  }

  /** The clause under construction against the literals added to it. */
  ghost predicate Collects(c: Clause, pending: Clause, trivial: bool) {
    && (forall l :: l in c ==> l in pending)
    && (forall l :: l in pending ==> l != 0 && (l in c || -l in c))
    && (trivial <==> Tautology(pending))
  }

  /** The stored clauses mean what was added; units are on the trail. */
  ghost predicate Holding(original: Formula, cdb: seq<int>, starts: seq<int>, trail: seq<int>, mt: bool, n: nat) {
    && Layout(cdb, starts) && AllNormalised(Clauses(cdb, starts), n)
    && Equivalent(Clauses(cdb, starts), original)
    && TrailOfUnits(Clauses(cdb, starts), trail, n)
    && (mt <==> [] in Clauses(cdb, starts))
    && |starts| - 1 <= |original|
  }

  class Solver {
    const prep: bool
    const useCrit: bool
    const pick: Picking
    const limits: Limits
    const options: Options
    const minchunksize: int
    const defrag: bool
    var nvars: nat
    var mark: seq<int>
    var trivial: bool
    var mt: bool
    var clause: seq<int>
    var cdb: seq<int>
    var trail: seq<int>
    var search: LocalSearch?
    ghost var starts: seq<int>
    /** The clauses added so far, literal by literal as given, and the open one. */
    ghost var original: Formula
    ghost var pending: Clause

    /** While clauses are being added. */
    ghost predicate Adding()
      reads this
    {
      && search == null && minchunksize >= 2 && ValidOptions(options) && nvars <= INT_MAX
      && |mark| <= nvars && MarksOf(mark, clause) && Normalised(clause, nvars)
      && Collects(clause, pending, trivial)
      && Holding(original, cdb, starts, trail, mt, nvars)
      && NoZeros(original)
    }

    constructor (prep: bool, useCrit: bool, pick: Picking, limits: Limits, options: Options, minchunksize: int, defrag: bool)
      requires minchunksize >= 2 && ValidOptions(options)
      ensures Adding() && original == [] && pending == []
    {
      this.prep, this.useCrit, this.pick, this.limits, this.options := prep, useCrit, pick, limits, options;
      this.minchunksize, this.defrag := minchunksize, defrag;
      nvars, mark, trivial, mt, clause, cdb, trail, search := 0, [], false, false, [], [], [], null;
      starts, original, pending := [0], [], [];
    }

    /** Adds a literal to the open clause, or closes it with zero. */
    method Add(lit: int) returns (aborted: bool)
      requires Adding() && IsInt(lit)
      modifies this
      ensures aborted <==> lit == INT_MIN || Abs(lit) == INT_MAX
      ensures aborted ==> unchanged(this)
      ensures Adding()
      ensures !aborted && lit != 0 ==> original == old(original) && pending == old(pending) + [lit]
      ensures !aborted && lit == 0 ==> original == old(original) + [old(pending)] && pending == []
    {
      if lit == INT_MIN || Abs(lit) == INT_MAX { return true; }
      aborted := false;
      if lit != 0 { AddLiteral(lit); } else { CloseClause(); }
    }

    method AddLiteral(lit: int)
      requires Adding() && lit != 0 && Abs(lit) < INT_MAX
      modifies this
      ensures Adding() && original == old(original) && pending == old(pending) + [lit]
    {
      hide Holding, MarksOf, Collects, Tautology, Normalised;
      var idx := Abs(lit);
      ghost var n := nvars;
      if idx >= nvars { nvars := idx + 1; }
      HoldingMore(original, cdb, starts, trail, mt, n, nvars);
      NormalisedMore(clause, n, nvars);
      MarkUpTo(idx);
      var m := mark[idx];
      if lit < 0 { m := -m; }
      CollectMore(mark, clause, pending, trivial, lit);
      MarkedSign(mark, clause, lit);
      pending := pending + [lit];
      if m < 0 {
        trivial := true;
      } else if m == 0 {
        NormaliseMore(clause, nvars, lit);
        MarkMore(mark, clause, lit);
        clause := clause + [lit];
        mark := mark[idx := if lit < 0 then -1 else 1];
      }
    }

    method MarkUpTo(idx: nat)
      requires MarksOf(mark, clause) && |mark| <= nvars && idx < nvars
      modifies `mark
      ensures MarksOf(mark, clause) && idx < |mark| <= nvars
    {
      hide MarksOf;
      while idx >= |mark|
        invariant MarksOf(mark, clause) && |mark| <= nvars
        decreases idx - |mark|
      {
        UnmarkedBeyond(mark, clause);
        mark := mark + [0];
      }
    }

    method CloseClause()
      requires Adding()
      modifies this
      ensures Adding() && original == old(original) + [old(pending)] && pending == []
    {
      CollectsNothing(clause, pending, trivial, nvars);
      hide Holding, MarksOf, Collects, Normalised, Tautology, Layout, Clauses;
      UnmarkClause();
      if trivial {
        DropTautology(original, cdb, starts, trail, mt, nvars, pending);
        trivial := false;
      } else {
        StoreOpenClause();
      }
      original := original + [pending];
      pending, clause := [], [];
    }

    method StoreOpenClause()
      requires Normalised(clause, nvars) && Collects(clause, pending, false) && Holding(original, cdb, starts, trail, mt, nvars)
      modifies `mt, `trail, `cdb, `starts
      ensures Holding(original + [pending], cdb, starts, trail, mt, nvars)
    {
      hide Holding, Normalised, Collects;
      StoreClause(original, cdb, starts, trail, mt, nvars, clause, pending);
      starts := starts + [|cdb| + |clause| + 1];
      NewClause();
    }

    /** Clears the marks of the clause. */
    method UnmarkClause()
      requires MarksOf(mark, clause)
      modifies `mark
      ensures MarksOf(mark, []) && |mark| == old(|mark|)
    {
      MarksOnly(mark, clause);
      for k := 0 to |clause|
        invariant |mark| == old(|mark|) && OnlyMarks(mark, clause[k..])
      {
        assert clause[k..][1..] == clause[k + 1..];
        UnmarkFirst(mark, clause[k..]);
        mark := mark[Abs(clause[k]) := 0];
      }
      NothingMarked(mark, clause[|clause|..]);
    }

    /** Pushes the clause and its closing zero, noting empty and unit clauses. */
    method NewClause()
      modifies `mt, `trail, `cdb
      ensures mt == (old(mt) || clause == [])
      ensures trail == if |clause| == 1 then old(trail) + [clause[0]] else old(trail)
      ensures cdb == old(cdb) + clause + [0]
    {
      if |clause| == 0 { mt := true; }
      if |clause| == 1 { trail := trail + [clause[0]]; }
      for k := 0 to |clause|
        invariant cdb == old(cdb) + clause[..k]
        invariant mt == (old(mt) || clause == [])
        invariant trail == if |clause| == 1 then old(trail) + [clause[0]] else old(trail)
      {
        cdb := cdb + [clause[k]];
        assert clause[..k + 1] == clause[..k] + [clause[k]];
      }
      assert clause[..|clause|] == clause;
      cdb := cdb + [0];
    }

    // ----- solving --------------------------------------------------------------

    /** 10 with a satisfying assignment, 20 when unsatisfiable, 0 when stopped.
        Aborts on an open clause or on too many clauses. The search takes at most
        `budget` iterations; `rounds` are those it took. */
    method Sat(budget: nat) returns (res: int, aborted: bool, ghost rounds: seq<seq<Snap>>)
      requires Adding() && budget <= Luby.INT64_MAX
      modifies this
      ensures original == old(original) && nvars == old(nvars)
      ensures aborted <==> old(clause) != [] || (!mt && TooMany())
      ensures aborted && old(clause) == [] ==> |original| > MAX_CLAUSES
      ensures !aborted ==> res == 0 || res == 10 || res == 20
      ensures !aborted ==> (res == 20 <==> mt) && (old(mt) ==> mt)
      ensures !aborted && res != 20 ==> Solved() && (res == 10 <==> search.bestMin == 0)
      ensures !aborted && res != 20 ==> Layout(cdb, starts) && search.f == Clauses(cdb, starts)
      ensures !aborted && res != 20 ==> search.n == nvars && search.Tracking() && search.visited != []
      ensures !aborted && res != 20 ==> Answers(search.f, nvars, options, limits, search.maskSet, search.maskClear, rounds, budget,
                                                search.Now(), res)
      ensures !aborted && res != 20 ==> trail == [] && (prep ==> search.prepped) && (!prep ==> cdb == old(cdb))
      ensures !aborted && res == 10 ==> Models(Assigned(), original)
      ensures !aborted && res == 10 ==> forall i :: 0 <= i < |original| ==> ReadsTrue(original[i])
      ensures !aborted && res == 20 ==> Unsatisfiable(original)
    {
      hide Holding;
      aborted, res, rounds := clause != [], 0, [];
      if aborted { return; }
      if mt {
        EmptyClause(original, cdb, starts, trail, mt, nvars);
        res := 20;
        return;
      }
      ghost var prepped := trail == [];
      if prep && trail != [] {
        prepped := true;
        Simplify();
        if mt {
          res := 20;
          return;
        }
      } else {
        Unsimplified(original, cdb, starts, trail, mt, nvars);
      }
      ghost var units := trail;
      aborted := Connect(prepped);
      if aborted { return; }
      NotSolver(this, search);
      res, rounds := RunSearch(search, budget, units, prepped);
      if res == 10 { DerefSatisfies(); }
    }

    /** The clauses on the stack could not be told apart in the packed cells. */
    ghost predicate TooMany()
      reads this
    {
      |starts| - 1 > MAX_CLAUSES
    }

    /** A search has left an assignment of all variables. */
    ghost predicate Solved()
      reads this
    {
      !mt && search != null && search.best.Length == nvars
    }

    /** Some literal of the clause reads true. */
    ghost predicate ReadsTrue(c: Clause)
      requires Solved()
      reads this, if search == null then {} else {search.best}
    {
      exists l :: l in c && l != 0 && Deref(l) == 1
    }

    /** What callers read from a model: a true literal in every clause. */
    lemma DerefSatisfies()
      requires Solved() && Models(Assigned(), original) && NoZeros(original)
      ensures forall i :: 0 <= i < |original| ==> ReadsTrue(original[i])
    {
      forall i | 0 <= i < |original| ensures ReadsTrue(original[i]) {
        assert Satisfies(Assigned(), original[i]);
        var l :| l in original[i] && Holds(Assigned(), l);
        assert 0 !in original[i];
        assert Deref(l) == 1;
      }
    }

    /** The assignment that `Deref` reads; variables never seen are false. */
    ghost function Assigned(): Assignment
      reads this, if search == null then {} else {search.best}
    {
      if search == null then iset{} else AssignmentOf(search.best[..])
    }

    /** Value of a literal after solving: 1 for true, -1 for false. After an
        unsatisfiable result every variable reads false. */
    function Deref(lit: int): (v: int)
      requires lit != 0 && (mt || Abs(lit) >= nvars || Solved())
      reads this, if search == null then {} else {search.best}
      ensures Solved() ==> v == if Holds(Assigned(), lit) then 1 else -1
      ensures v == 1 || v == -1
    {
      if mt || Abs(lit) >= nvars then (if lit < 0 then 1 else -1)
      else if (if lit > 0 then search.best[lit] else !search.best[-lit]) then 1 else -1
    }

    /** Unit propagation; the clauses and the trail keep the meaning together. */
    method Simplify()
      requires Adding() && !mt
      modifies `cdb, `trail, `mt, `starts
      ensures mt ==> Unsatisfiable(original)
      ensures !mt ==> Simplified(original, cdb, starts, trail, nvars, true) && |starts| - 1 <= |original|
    {
      NoEmptyClause(original, cdb, starts, trail, mt, nvars);
      ghost var f := Clauses(cdb, starts);
      hide Propagated;
      var cdb', trail', mt';
      ghost var starts';
      cdb', trail', mt', starts' := Preprocess(cdb, trail, nvars, starts);
      cdb, trail, mt, starts := cdb', trail', mt', starts';
      if mt {
        SameUnsatisfiable(f, original);
      } else {
        PropagatedSimplifies(original, f, cdb, starts, trail, nvars);
      }
    }

    /** Builds the index, the masks and the search state. */
    method Connect(ghost prepped: bool) returns (aborted: bool)
      requires Simplified(original, cdb, starts, trail, nvars, prepped) && minchunksize >= 2 && ValidOptions(options) && nvars <= INT_MAX
      modifies `search, `trail
      ensures aborted <==> TooMany()
      ensures !aborted ==> search != null && fresh(search) && fresh(search.Frame()) && Solved() == !mt
      ensures !aborted ==> search.Wired() && search.Apart() && search.unsat.Valid() && search.Tracking()
      ensures !aborted ==> search.f == Clauses(cdb, starts) && search.trail == old(trail) && search.prepped == prepped
      ensures !aborted ==> search.n == nvars && search.cdb == cdb && search.starts == starts
      ensures !aborted ==> Begun(search) && trail == []
    {
      ghost var f := Clauses(cdb, starts);
      SimplifiedParts(original, cdb, starts, trail, nvars, prepped);
      hide Simplified, Occurrences.Stack, UnitsApart, Consistent, LocalSearch.Wired, UnsatSet.Valid, Tracks;
      var s := BuildSearch(f, starts, prepped);
      if s == null { return true; }
      aborted := false;
      NothingTracked(f, nvars, trail, prepped, s.best[..]);
      ghost var units := trail;
      TracksNow(s);
      hide LocalSearch.Tracking, LocalSearch.Apart, LocalSearch.Frame, LocalSearch.Wired, Begun;
      NotSolver(this, s);
      search := s;
      trail := [];
    }

    /** A search with the options of the solver that has not yet moved. */
    ghost predicate Begun(s: LocalSearch)
      reads s, s.vals, s.best, s.tmp, s.inner
    {
      s.Paced() && s.options == options && s.outerInterval == 0 && Unstarted(s.n, s.Now())
    }

    lemma TracksNow(s: LocalSearch)
      requires Tracks(s.f, s.n, s.trail, s.prepped, s.visited, s.best[..], s.bestMin)
      ensures s.Tracking()
    {}

    /** The search state over a new index, or null when there are too many clauses. */
    method BuildSearch(ghost f: Formula, ghost starts: seq<int>, ghost prepped: bool) returns (s: LocalSearch?)
      requires Occurrences.Stack(f, nvars, cdb, starts) && (forall i :: 0 <= i < |f| ==> |f[i]| > 0)
      requires (forall l :: l in trail ==> IsLit(l, nvars)) && (prepped ==> UnitsApart(f, trail) && Consistent(trail))
      requires minchunksize >= 2 && ValidOptions(options) && nvars <= INT_MAX
      ensures s == null <==> |f| > MAX_CLAUSES
      ensures s != null ==> fresh(s) && fresh(s.Frame())
      ensures s != null ==> s.Wired() && s.Apart() && s.unsat.Valid() && s.bestMin == INT_MAX && s.visited == []
      ensures s != null ==> s.f == f && s.trail == trail && s.prepped == prepped && s.n == nvars && s.cdb == cdb && s.starts == starts
      ensures s != null ==> s.best.Length == nvars && Begun(s)
    {
      hide Indexed, Occurrences.Stack, UnitsApart, Consistent, UnsatSet.Valid, MasksOf;
      var nclauses, maxlen := Measure(cdb, nvars, f, starts);
      if nclauses > MAX_CLAUSES { return null; }
      var lits := ClauseOffsets(cdb, nclauses, nvars, f, starts);
      var refs, occs := Occurrences.Connect(cdb, lits, nvars, f, starts);
      var maskSet, maskClear := UnitMasks(trail, nvars);
      MaskSizes(trail, nvars, maskSet, maskClear);
      s := NewSearch(lits[..], refs[..], occs[..], maskSet, maskClear, f, starts, prepped);
      hide LocalSearch.IndexWired, LocalSearch.MasksWired;
    }

    /** The search with its buffers. */
    method NewSearch(lits: seq<int>, refs: seq<int>, occs: seq<int>, maskSet: seq<bool>, maskClear: seq<bool>,
                     ghost f: Formula, ghost starts: seq<int>, ghost prepped: bool) returns (s: LocalSearch)
      requires Sources(f, nvars, cdb, starts, lits, refs, occs, trail, maskSet, maskClear, prepped)
      requires minchunksize >= 2 && ValidOptions(options) && nvars <= INT_MAX
      ensures fresh(s) && fresh(s.Frame())
      ensures s.Wired() && s.Apart() && s.unsat.Valid() && s.bestMin == INT_MAX && s.visited == []
      ensures s.f == f && s.trail == trail && s.prepped == prepped && s.n == nvars && s.cdb == cdb && s.starts == starts
      ensures s.best.Length == nvars && Begun(s)
    {
      hide Sources, UnsatSet.Valid, LocalSearch.Wired, LocalSearch.Apart, InnerBase, ValidOptions, LocalSearch.Paced;
      hide Begun, BuffersFit;
      SourceSizes(f, nvars, cdb, starts, lits, refs, occs, trail, maskSet, maskClear, prepped);
      InnerFits(options, nvars);
      var inner := new Luby.Restarts(InnerBase(options, nvars), options.reluctant);
      var vals, best, tmp, satcnt, crit, weightedbreak, weights := Allocate(nvars, |lits|);
      var unsat := new UnsatSet(|lits|, !pick.Pseudo? && !pick.Random?, minchunksize, defrag);
      s := new LocalSearch(nvars, cdb, lits, refs, occs, maskSet, maskClear, pick, useCrit, options, inner, unsat,
                           vals, best, tmp, satcnt, crit, weightedbreak, weights, f, starts, trail, prepped);
      BegunNow(s);
    }

    lemma BegunNow(s: LocalSearch)
      requires s.Paced() && s.options == options && BuffersFit(s.n, |s.f|, s.vals, s.best, s.tmp, s.satcnt, s.crit, s.weightedbreak, s.weights)
      requires s.flips == 0 && s.bestMin == s.tmpMin == s.lastMin == INT_MAX && s.hits == 0 && s.visited == [] && s.count == 0
      requires s.outerInterval == 0
      ensures Begun(s) && s.best.Length == s.n
    {
      hide LocalSearch.Paced;
    }

    /** Runs the search and checks what it found. */
    method RunSearch(s: LocalSearch, budget: nat, ghost units: seq<int>, ghost prepped: bool)
      returns (res: int, ghost rounds: seq<seq<Snap>>)
      requires s.Wired() && s.Apart() && s.unsat.Valid() && s.Tracking() && Begun(s) && budget <= Luby.INT64_MAX
      requires Simplified(original, cdb, starts, units, nvars, prepped)
      requires s.f == Clauses(cdb, starts) && s.trail == units && s.prepped == prepped
      requires s.n == nvars && s.cdb == cdb && s.starts == starts
      modifies s.Frame()
      ensures res == 0 || res == 10
      ensures res == 10 <==> s.bestMin == 0
      ensures res == 10 ==> Models(AssignmentOf(s.best[..]), original)
      ensures s.Tracking() && s.visited != []
      ensures Answers(s.f, nvars, options, limits, s.maskSet, s.maskClear, rounds, budget, s.Now(), res)
    {
      hide Simplified, LocalSearch.IndexWired, LocalSearch.MasksWired, UnsatSet.Valid, Tracks;
      NotSolver(this, s);
      ghost var start := s.Now();
      var stopped;
      stopped, rounds := s.OuterLoop(limits, budget);
      hide LocalSearch.Synced;
      AnswersNow(s.f, nvars, options, limits, s.maskSet, s.maskClear, start, rounds, budget);
      res := 0;
      if s.bestMin == 0 {
        BestModels(original, cdb, starts, units, nvars, prepped, s.visited, s.best[..]);
        var ok := CheckAssignment(s.best[..], units, prepped);
        assert ok;
        res := 10;
      }
    }

    /** The final check over all clauses: whether each has a true literal. */
    method CheckAssignment(best: seq<bool>, ghost units: seq<int>, ghost prepped: bool) returns (ok: bool)
      requires Simplified(original, cdb, starts, units, nvars, prepped) && |best| == nvars
      ensures ok <==> forall i :: 0 <= i < |starts| - 1 ==> Satisfies(AssignmentOf(best), Clauses(cdb, starts)[i])
    {
      ghost var f := Clauses(cdb, starts);
      SimplifiedParts(original, cdb, starts, units, nvars, prepped);
      hide Simplified, Occurrences.Stack, Satisfies, AssignmentOf;
      StackSize(f, nvars, cdb, starts);
      StartsMonotone(f, nvars, cdb, starts);
      var c := 0;
      ghost var i := 0;
      while c < |cdb|
        invariant 0 <= i <= |f| && c == starts[i]
        invariant forall j :: 0 <= j < i ==> Satisfies(AssignmentOf(best), f[j])
      {
        var satisfied;
        satisfied, c := CheckClause(best, c, f, i);
        if !satisfied { return false; }
        i := i + 1;
      }
      ok := true;
    }

    /** Whether a clause has a true literal, and where the next one starts. */
    method CheckClause(best: seq<bool>, from: int, ghost f: Formula, ghost i: nat) returns (satisfied: bool, next: int)
      requires Occurrences.Stack(f, nvars, cdb, starts) && i < |f| && |starts| == |f| + 1 && from == starts[i] && |best| == nvars
      ensures (satisfied <==> Satisfies(AssignmentOf(best), f[i])) && next == starts[i + 1]
    {
      hide Occurrences.Stack, Clauses;
      ghost var k, c := 0, f[i];
      next, satisfied := from, false;
      ReadAt(f, nvars, cdb, starts, i, 0, next);
      while cdb[next] != 0
        invariant 0 <= k <= |c| && next == starts[i] + k && 0 <= next < |cdb|
        invariant (cdb[next] == 0 <==> k == |c|) && (k < |c| ==> cdb[next] == c[k] && IsLit(c[k], nvars))
        invariant satisfied <==> exists j :: 0 <= j < k && Holds(AssignmentOf(best), c[j])
        decreases |c| - k
      {
        var lit := cdb[next];
        if if lit > 0 then best[lit] else !best[-lit] { satisfied := true; }
        next, k := next + 1, k + 1;
        ReadAt(f, nvars, cdb, starts, i, k, next);
      }
      ReadStack(f, nvars, cdb, starts, i, k);
      next := next + 1;
    }

    /** The unit literals as bits to set and bits to keep. */
    static method UnitMasks(trail: seq<int>, n: nat) returns (maskSet: seq<bool>, maskClear: seq<bool>)
      requires forall l :: l in trail ==> IsLit(l, n)
      ensures MasksOf(trail, n, maskSet, maskClear)
    {
      maskSet, maskClear := seq(n, _ => false), seq(n, _ => true);
      var k := |trail|;
      while k > 0
        invariant 0 <= k <= |trail| && |maskSet| == |maskClear| == n
        invariant forall i :: 0 <= i < n ==> (maskSet[i] <==> i in trail[k..])
        invariant forall i :: 0 <= i < n ==> (maskClear[i] <==> -i !in trail[k..])
      {
        k := k - 1;
        var lit := trail[k];
        assert trail[k..] == [lit] + trail[k + 1..];
        assert lit in trail;
        if lit < 0 { maskClear := maskClear[-lit := false]; } else { maskSet := maskSet[lit := true]; }
      }
      assert trail[0..] == trail;
    }
  }

  lemma MaskSizes(trail: seq<int>, n: nat, maskSet: seq<bool>, maskClear: seq<bool>)
    requires MasksOf(trail, n, maskSet, maskClear)
    ensures |maskSet| == |maskClear| == n
  {}

  lemma NotSolver(solver: Solver, s: LocalSearch)
    ensures solver !in s.Frame() && solver !in s.unsat.Footprint()
  {}

  ghost function AssignmentOf(v: seq<bool>): Assignment {
    iset x | 0 < x < |v| && v[x]
  }

  /** What the search starts from: clauses and units that together mean what
      was added, no empty clause, and, after propagation, no shared variable. */
  ghost predicate Simplified(original: Formula, cdb: seq<int>, starts: seq<int>, trail: seq<int>, n: nat, prepped: bool) {
    && Layout(cdb, starts) && AllNormalised(Clauses(cdb, starts), n)
    && (forall i :: 0 <= i < |starts| - 1 ==> |Clauses(cdb, starts)[i]| > 0)
    && (forall l :: l in trail ==> IsLit(l, n))
    && (prepped ==> UnitsApart(Clauses(cdb, starts), trail) && Consistent(trail))
    && (forall a :: Models(a, Clauses(cdb, starts)) && (prepped ==> ExtendsTrail(a, trail)) ==> Models(a, original))
  }

  lemma SimplifiedParts(original: Formula, cdb: seq<int>, starts: seq<int>, trail: seq<int>, n: nat, prepped: bool)
    requires Simplified(original, cdb, starts, trail, n, prepped)
    ensures Layout(cdb, starts) && Occurrences.Stack(Clauses(cdb, starts), n, cdb, starts)
    ensures (forall i :: 0 <= i < |Clauses(cdb, starts)| ==> |Clauses(cdb, starts)[i]| > 0)
    ensures forall l :: l in trail ==> IsLit(l, n)
    ensures prepped ==> UnitsApart(Clauses(cdb, starts), trail) && Consistent(trail)
  {}

  lemma EmptyClause(original: Formula, cdb: seq<int>, starts: seq<int>, trail: seq<int>, mt: bool, n: nat)
    requires Holding(original, cdb, starts, trail, mt, n) && mt
    ensures Unsatisfiable(original)
  {
    var f := Clauses(cdb, starts);
    var i :| 0 <= i < |f| && f[i] == [];
    forall a ensures !Models(a, original) {
      assert !Satisfies(a, f[i]);
      assert Models(a, f) <==> Models(a, original);
    }
  }

  lemma NoEmptyClause(original: Formula, cdb: seq<int>, starts: seq<int>, trail: seq<int>, mt: bool, n: nat)
    requires Holding(original, cdb, starts, trail, mt, n) && !mt
    ensures Layout(cdb, starts) && AllNormalised(Clauses(cdb, starts), n) && TrailOfUnits(Clauses(cdb, starts), trail, n)
    ensures Equivalent(Clauses(cdb, starts), original)
    ensures forall i :: 0 <= i < |Clauses(cdb, starts)| ==> |Clauses(cdb, starts)[i]| > 0
  {
    var f := Clauses(cdb, starts);
    forall i | 0 <= i < |f| ensures |f[i]| > 0 {
      assert f[i] in f;
    }
  }

  lemma Unsimplified(original: Formula, cdb: seq<int>, starts: seq<int>, trail: seq<int>, mt: bool, n: nat)
    requires Holding(original, cdb, starts, trail, mt, n) && !mt
    ensures Simplified(original, cdb, starts, trail, n, trail == []) && |starts| - 1 <= |original|
  {
    NoEmptyClause(original, cdb, starts, trail, mt, n);
  }

  lemma SameUnsatisfiable(f: Formula, original: Formula)
    requires Unsatisfiable(f) && Equivalent(f, original)
    ensures Unsatisfiable(original)
  {
    forall a ensures !Models(a, original) { assert !Models(a, f); }
  }

  lemma PropagatedSimplifies(original: Formula, f: Formula, cdb: seq<int>, starts: seq<int>, trail: seq<int>, n: nat)
    requires Layout(cdb, starts) && Propagated(f, Clauses(cdb, starts), trail, n) && Equivalent(f, original)
    ensures Simplified(original, cdb, starts, trail, n, true)
  {
    var g := Clauses(cdb, starts);
    forall a | Models(a, g) && ExtendsTrail(a, trail) ensures Models(a, original) {
      assert Models(a, f) <==> Models(a, original);
    }
  }

  lemma NothingTracked(f: Formula, n: nat, trail: seq<int>, prepped: bool, best: seq<bool>)
    requires AllNormalised(f, n) && |best| == n
    ensures Tracks(f, n, trail, prepped, [], best, INT_MAX)
  {}

  /** An assignment without falsified clauses models everything added. */
  lemma BestModels(original: Formula, cdb: seq<int>, starts: seq<int>, trail: seq<int>, n: nat, prepped: bool,
                   visited: seq<seq<bool>>, best: seq<bool>)
    requires Simplified(original, cdb, starts, trail, n, prepped)
    requires Tracks(Clauses(cdb, starts), n, trail, prepped, visited, best, 0)
    ensures Models(AssignmentOf(best), Clauses(cdb, starts)) && Models(AssignmentOf(best), original)
  {
    var f := Clauses(cdb, starts);
    var a := AssignmentOf(best);
    assert |Falsified(f, best)| == 0;
    forall i | 0 <= i < |f| ensures Satisfies(a, f[i]) {
      assert i !in Falsified(f, best);
      NoneTrue(f[i], best);
      var l :| l in f[i] && IsLit(l, n) && True(best, l);
      assert Holds(a, l);
    }
    if prepped {
      assert Masked(trail, best);
      forall l | l in trail ensures Holds(a, l) { assert True(best, l); }
    }
  }

  lemma HoldingMore(original: Formula, cdb: seq<int>, starts: seq<int>, trail: seq<int>, mt: bool, n: nat, m: nat)
    requires Holding(original, cdb, starts, trail, mt, n) && n <= m
    ensures Holding(original, cdb, starts, trail, mt, m)
  {
    var f := Clauses(cdb, starts);
    forall i | 0 <= i < |f| ensures Normalised(f[i], m) { assert Normalised(f[i], n); }
  }

  lemma CollectsNothing(c: Clause, pending: Clause, trivial: bool, n: nat)
    requires Collects(c, pending, trivial) && Normalised(c, n)
    ensures Normalised([], n) && Collects([], [], false) && (trivial ==> Tautology(pending))
  {}

  lemma NormalisedMore(c: Clause, n: nat, m: nat)
    requires Normalised(c, n) && n <= m
    ensures Normalised(c, m)
  {}

  lemma UnmarkedBeyond(mark: seq<int>, c: Clause)
    requires MarksOf(mark, c)
    ensures MarksOf(mark + [0], c)
  {
    forall k | 0 <= k < |c| ensures c[k] != |mark| && c[k] != -|mark| {}
  }

  lemma CollectMore(mark: seq<int>, c: Clause, pending: Clause, trivial: bool, lit: int)
    requires MarksOf(mark, c) && Collects(c, pending, trivial) && lit != 0 && Abs(lit) < |mark|
    ensures var m := if lit < 0 then -mark[Abs(lit)] else mark[Abs(lit)];
            if m < 0 then Collects(c, pending + [lit], true)
            else if m == 0 then Collects(c + [lit], pending + [lit], trivial)
            else Collects(c, pending + [lit], trivial)
  {
    var p := pending + [lit];
    assert forall l :: l in p <==> l in pending || l == lit;
    assert forall l :: l in c + [lit] <==> l in c || l == lit;
    TautologyMore(pending, lit);
    assert -lit in pending ==> lit in c || -lit in c;
  }

  /** An unmarked variable is not in the clause. */
  lemma MarkedSign(mark: seq<int>, c: Clause, lit: int)
    requires MarksOf(mark, c) && lit != 0 && Abs(lit) < |mark|
    ensures mark[Abs(lit)] == 0 ==> lit !in c && -lit !in c
  {}

  /** Only variables of the clause are marked. */
  ghost predicate OnlyMarks(mark: seq<int>, c: Clause) {
    && (forall k :: 0 <= k < |c| ==> c[k] != 0 && Abs(c[k]) < |mark|)
    && forall i :: 0 < i < |mark| ==> mark[i] == 0 || exists k :: 0 <= k < |c| && Abs(c[k]) == i
  }

  lemma MarksOnly(mark: seq<int>, c: Clause)
    requires MarksOf(mark, c)
    ensures OnlyMarks(mark, c[0..])
  {
    assert c[0..] == c;
    forall i | 0 < i < |mark| && mark[i] != 0 ensures exists k :: 0 <= k < |c| && Abs(c[k]) == i {
      var x :| x in c && (x == i || x == -i);
      var k :| 0 <= k < |c| && c[k] == x;
    }
  }

  lemma UnmarkFirst(mark: seq<int>, c: Clause)
    requires c != [] && OnlyMarks(mark, c)
    ensures OnlyMarks(mark[Abs(c[0]) := 0], c[1..])
  {
    var m := mark[Abs(c[0]) := 0];
    forall i | 0 < i < |m| && m[i] != 0 ensures exists k :: 0 <= k < |c[1..]| && Abs(c[1..][k]) == i {
      var k :| 0 <= k < |c| && Abs(c[k]) == i;
      assert c[1..][k - 1] == c[k];
    }
  }

  lemma NothingMarked(mark: seq<int>, c: Clause)
    requires OnlyMarks(mark, c) && c == []
    ensures MarksOf(mark, [])
  {}

  lemma MarkMore(mark: seq<int>, c: Clause, lit: int)
    requires MarksOf(mark, c) && lit != 0 && Abs(lit) < |mark| && mark[Abs(lit)] == 0
    ensures MarksOf(mark[Abs(lit) := if lit < 0 then -1 else 1], c + [lit])
  {
    assert forall l :: l in c + [lit] <==> l in c || l == lit;
  }

  lemma TautologyMore(pending: Clause, lit: int)
    requires lit != 0
    ensures Tautology(pending + [lit]) <==> Tautology(pending) || -lit in pending
  {
    var p := pending + [lit];
    assert forall l :: l in p <==> l in pending || l == lit;
    if Tautology(pending) {
      var l :| l in pending && l != 0 && -l in pending;
      assert l in p && -l in p;
    }
    if -lit in pending { assert lit in p && -lit in p; }
    if Tautology(p) {
      var l :| l in p && l != 0 && -l in p;
      assert l == lit || -l == lit || (l in pending && -l in pending);
    }
  }

  lemma NormaliseMore(c: Clause, n: nat, lit: int)
    requires Normalised(c, n) && IsLit(lit, n) && lit !in c && -lit !in c
    ensures Normalised(c + [lit], n)
  {
    forall k | 0 <= k < |c| ensures c[k] != lit && c[k] != -lit { assert c[k] in c; }
  }

  /** A tautology adds nothing to the meaning. */
  lemma DropTautology(original: Formula, cdb: seq<int>, starts: seq<int>, trail: seq<int>, mt: bool, n: nat, pending: Clause)
    requires Holding(original, cdb, starts, trail, mt, n) && Tautology(pending)
    ensures Holding(original + [pending], cdb, starts, trail, mt, n)
  {
    var l :| l in pending && l != 0 && -l in pending;
    forall a ensures Models(a, original + [pending]) <==> Models(a, original) {
      ModelsAppend(a, original, pending);
      assert Holds(a, l) || Holds(a, -l);
    }
    assert forall a :: Models(a, Clauses(cdb, starts)) <==> Models(a, original);
  }

  /** Storing the normalised clause keeps the meaning. */
  lemma StoreClause(original: Formula, cdb: seq<int>, starts: seq<int>, trail: seq<int>, mt: bool, n: nat, c: Clause, pending: Clause)
    requires Holding(original, cdb, starts, trail, mt, n) && Normalised(c, n) && Collects(c, pending, false)
    ensures Holding(original + [pending], cdb + c + [0], starts + [|cdb| + |c| + 1],
                    if |c| == 1 then trail + [c[0]] else trail, mt || c == [], n)
  {
    var f := Clauses(cdb, starts);
    LayoutAppend(cdb, starts, c);
    forall l | l in pending ensures l in c {
      assert l in c || (-l in c && -l in pending);
    }
    forall a ensures Models(a, f + [c]) <==> Models(a, original + [pending]) {
      ModelsAppend(a, original, pending);
      ModelsAppend(a, f, c);
      assert Models(a, f) <==> Models(a, original);
    }
    var t := if |c| == 1 then trail + [c[0]] else trail;
    assert forall x :: x in f + [c] <==> x in f || x == c;
    assert TrailOfUnits(f + [c], t, n) by {
      forall i | 0 <= i < |f + [c]| && |(f + [c])[i]| == 1 ensures (f + [c])[i][0] in t {
        if i < |f| { assert (f + [c])[i] == f[i]; }
      }
      forall l | l in t ensures IsLit(l, n) && [l] in f + [c] {
        if l !in trail { assert c == [l]; }
      }
    }
  }
}
