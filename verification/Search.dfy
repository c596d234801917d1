/** The local search: flips, restarts, and the best assignment seen. All
    incremental state equals its recomputation from the current assignment. */
module Search {
  import opened Cnf
  import opened Finite
  import opened Occurrences
  import opened Tally
  import opened Unsat
  import opened History
  import Luby

  const UINT_MAX := 0xffff_ffff

  class LocalSearch {
    // The index and the unit masks are read only here.
    const n: nat
    const cdb: seq<int>
    const lits: seq<int>
    const refs: seq<int>
    const occs: seq<int>
    const maskSet: seq<bool>
    const maskClear: seq<bool>
    const pick: Picking
    /** Whether break weights are read off the critical literals, or scanned for each pick. */
    const useCrit: bool
    const options: Options
    ghost const f: Formula
    ghost const starts: seq<int>
    ghost const trail: seq<int>
    /** Whether unit propagation simplified the clauses. */
    ghost const prepped: bool

    const vals: array<bool>
    const best: array<bool>
    const tmp: array<bool>
    const satcnt: array<int>
    const crit: array<int>
    const weightedbreak: array<int>
    const weights: array<int>
    const unsat: UnsatSet
    const inner: Luby.Restarts   // when the next inner restart is due

    var strat: Strategy
    var count: nat               // inner restarts so far
    var outerLim: int
    var outerInterval: int
    var flips: nat
    var bestMin: int
    var tmpMin: int
    var lastMin: int
    var hits: int
    ghost var clauseWeights: seq<int>
    /** Every assignment the search has stood at. */
    ghost var visited: seq<seq<bool>>

    /** What never changes: the index, the masks, the sizes, and which buffers are distinct. */
    ghost predicate Wired() {
      IndexWired() && MasksWired() && Sized()
    }

    ghost predicate IndexWired() {
      && Occurrences.Stack(f, n, cdb, starts) && lits == starts[..|starts| - 1] && |f| < 0x200_0000
      && Indexed(f, n, refs, occs) && (forall c :: 0 <= c < |f| ==> |f[c]| > 0)
    }

    ghost predicate MasksWired() {
      MasksOf(trail, n, maskSet, maskClear) && (prepped ==> UnitsApart(f, trail) && Consistent(trail))
    }

    ghost predicate Sized() {
      && |f| < 0x200_0000 && BuffersFit(n, |f|, vals, best, tmp, satcnt, crit, weightedbreak, weights)
      && unsat.size == |f| && (unsat.usequeue <==> !pick.Pseudo? && !pick.Random?)
    }

    /** The restart intervals follow the options. */
    ghost predicate Paced() {
      && ValidOptions(options) && n <= INT_MAX
      && inner.restart == InnerBase(options, n) <= INT_MAX && inner.reluctant == options.reluctant
    }

    lemma ReadStart(lit: int)
      requires Wired() && IsLit(lit, n)
      ensures |refs| == 2 * n && Ref(lit) < |refs|
    {
      hide Occurrences.Stack, Indexed;
      ReadOcc(f, n, refs, occs, lit, 0);
    }

    /** What reading the k-th cell of the list of lit finds. */
    lemma ReadIndex(lit: int, k: nat, p: int)
      requires Wired() && IsLit(lit, n) && k <= |Occs(f, lit)|
      requires |refs| == 2 * n && Ref(lit) < |refs| && p == refs[Ref(lit)] + k
      ensures 0 <= p < |occs| && (occs[p] < 0 <==> k == |Occs(f, lit)|)
      ensures k < |Occs(f, lit)| ==> occs[p] == Occs(f, lit)[k] && IsOccurrence(f, lit, |f|, occs[p])
    {
      hide Occurrences.Stack, Indexed;
      ReadOcc(f, n, refs, occs, lit, k);
    }

    /** The counters and break weights belong to no other structure. */
    ghost predicate Apart()
      reads unsat, unsat.queue
    {
      var foot := unsat.Footprint();
      && this !in foot && vals !in foot && best !in foot && tmp !in foot
      && satcnt !in foot && crit !in foot && weightedbreak !in foot && weights !in foot
    }

    ghost predicate Weighed()
      reads `clauseWeights, weights
    {
      && |clauseWeights| == |f| && weights.Length == MAX_LEN + 1
      && forall c :: 0 <= c < |f| ==> clauseWeights[c] == weights[Capped(|f[c]|)]
    }

    /** The break weights agree with the counters. */
    ghost predicate Balanced()
      reads `clauseWeights, satcnt, crit, weightedbreak
    {
      WeightsKept(n, satcnt[..], crit[..], clauseWeights, weightedbreak[..])
    }

    /** The unsatisfied set holds exactly the clauses without a true literal. */
    ghost predicate Collected()
      reads unsat, unsat.Footprint(), satcnt
    {
      && unsat.Valid() && unsat.size == satcnt.Length
      && forall c :: c in unsat.Contents() <==> 0 <= c < satcnt.Length && satcnt[c] == 0
    }

    /** All incremental state equals its recomputation from the assignment. */
    ghost predicate Synced()
      reads `clauseWeights, unsat, unsat.Footprint(), vals, satcnt, crit, weightedbreak, weights
    {
      && Wired() && Apart() && Weighed() && Balanced() && Collected()
      && Counted(f, vals[..], satcnt[..], crit[..])
    }

    constructor (n: nat, cdb: seq<int>, lits: seq<int>, refs: seq<int>, occs: seq<int>, maskSet: seq<bool>,
                 maskClear: seq<bool>, pick: Picking, useCrit: bool, options: Options, inner: Luby.Restarts, unsat: UnsatSet,
                 vals: array<bool>, best: array<bool>, tmp: array<bool>, satcnt: array<int>, crit: array<int>,
                 weightedbreak: array<int>, weights: array<int>,
                 ghost f: Formula, ghost starts: seq<int>, ghost trail: seq<int>, ghost prepped: bool)
      requires Sources(f, n, cdb, starts, lits, refs, occs, trail, maskSet, maskClear, prepped)
      requires ValidOptions(options) && n <= INT_MAX && inner.restart == InnerBase(options, n) && inner.reluctant == options.reluctant
      requires unsat.size == |f| && (unsat.usequeue <==> !pick.Pseudo? && !pick.Random?)
      requires BuffersFit(n, |f|, vals, best, tmp, satcnt, crit, weightedbreak, weights)
      requires vals !in unsat.Footprint() && best !in unsat.Footprint() && tmp !in unsat.Footprint() && satcnt !in unsat.Footprint()
      requires crit !in unsat.Footprint() && weightedbreak !in unsat.Footprint() && weights !in unsat.Footprint()
      ensures Wired() && Paced() && Apart()
      ensures this.inner == inner && this.unsat == unsat && this.vals == vals && this.best == best && this.tmp == tmp
      ensures this.satcnt == satcnt && this.crit == crit && this.weightedbreak == weightedbreak && this.weights == weights
      ensures this.n == n && this.cdb == cdb && this.f == f && this.starts == starts && this.trail == trail && this.prepped == prepped
      ensures this.maskSet == maskSet && this.maskClear == maskClear && this.pick == pick && this.useCrit == useCrit && this.options == options
      ensures flips == 0 && bestMin == tmpMin == lastMin == INT_MAX && hits == 0 && visited == [] && count == 0 && outerInterval == 0
    {
      hide Indexed, Occurrences.Stack, UnsatSet.Valid, UnitsApart, MasksOf, Consistent, Wired, Apart, UnsatSet.Footprint;
      hide ValidOptions, InnerBase, Paced, Sources;
      SourceSizes(f, n, cdb, starts, lits, refs, occs, trail, maskSet, maskClear, prepped);
      this.n, this.cdb, this.lits, this.refs, this.occs := n, cdb, lits, refs, occs;
      this.maskSet, this.maskClear, this.pick, this.useCrit, this.options := maskSet, maskClear, pick, useCrit, options;
      this.f, this.starts, this.trail, this.prepped := f, starts, trail, prepped;
      this.vals, this.best, this.tmp, this.satcnt, this.crit := vals, best, tmp, satcnt, crit;
      this.weightedbreak, this.weights, this.inner, this.unsat := weightedbreak, weights, inner, unsat;
      strat, count, outerLim, outerInterval := options.strategy, 0, 0, 0;
      flips, bestMin, tmpMin, lastMin, hits := 0, INT_MAX, INT_MAX, INT_MAX, 0;
      clauseWeights, visited := [], [];
      new;
      NotOurs(this, unsat);
      WiredNow();
      PacedNow();
      ApartNow(unsat.Footprint());
    }

    lemma PacedNow()
      requires ValidOptions(options) && n <= INT_MAX && inner.restart == InnerBase(options, n) && inner.reluctant == options.reluctant
      ensures Paced()
    {}

    lemma WiredNow()
      requires Sources(f, n, cdb, starts, lits, refs, occs, trail, maskSet, maskClear, prepped) && Sized()
      ensures Wired()
    {}

    lemma ApartNow(foot: set<object>)
      requires foot == unsat.Footprint()
      requires this !in foot && vals !in foot && best !in foot && tmp !in foot
      requires satcnt !in foot && crit !in foot && weightedbreak !in foot && weights !in foot
      ensures Apart()
    {}

    /** Where the search stands. */
    ghost function Now(): Snap
      reads this, vals, best, tmp, inner
    {
      Snap(vals[..], clauseWeights, strat, flips, visited, best[..], bestMin, hits, tmp[..], tmpMin, lastMin,
           count, inner.calls, inner.lim, outerLim, outerInterval)
    }

    // ----- the two counter updates --------------------------------------------

    method IncWeightedBreak(lit: int, len: nat, ghost c: nat)
      requires Wired() && Weighed() && IsLit(lit, n) && c < |f| && len == Capped(|f[c]|)
      modifies weightedbreak
      ensures weightedbreak[..] == old(weightedbreak[..])[Ref(lit) := old(weightedbreak[Ref(lit)]) + clauseWeights[c]]
    {
      hide Indexed, Occurrences.Stack, Layout, AllNormalised;
      RefFits(lit, n);
      CappedFits(|f[c]|);
      var w := weights[len];
      weightedbreak[Ref(lit)] := weightedbreak[Ref(lit)] + w;
    }

    method DecWeightedBreak(lit: int, len: nat, ghost c: nat)
      requires Wired() && Weighed() && IsLit(lit, n) && c < |f| && len == Capped(|f[c]|)
      requires weightedbreak[Ref(lit)] >= clauseWeights[c]
      modifies weightedbreak
      ensures weightedbreak[..] == old(weightedbreak[..])[Ref(lit) := old(weightedbreak[Ref(lit)]) - clauseWeights[c]]
    {
      hide Indexed, Occurrences.Stack, Layout, AllNormalised;
      RefFits(lit, n);
      CappedFits(|f[c]|);
      var w := weights[len];
      assert weightedbreak[Ref(lit)] >= w;
      weightedbreak[Ref(lit)] := weightedbreak[Ref(lit)] - w;
    }

    /** One more literal of the clause is true. */
    method IncSatCnt(cidx: nat, lit: int, len: nat) returns (res: int)
      requires Wired() && Weighed() && Balanced() && cidx < |f| && IsLit(lit, n) && len == Capped(|f[cidx]|)
      requires CriticalOK(f, n, cidx, satcnt[..], crit[..])
      modifies satcnt, crit, weightedbreak
      ensures Balanced() && res == old(satcnt[cidx])
      ensures satcnt[..] == old(satcnt[..])[cidx := res + 1]
      ensures crit[..] == old(crit[..])[cidx := Xor(old(crit[cidx]), lit)]
    {
      hide Indexed, Occurrences.Stack, WeightsKept, Xor, Held;
      ghost var sat0, crit0, wb0 := satcnt[..], crit[..], weightedbreak[..];
      res := satcnt[cidx];
      satcnt[cidx] := res + 1;
      assert crit0[cidx] == crit[cidx];
      if res == 1 {
        HeldContributes(n, sat0, crit0, clauseWeights, wb0, cidx, crit[cidx]);
        DecWeightedBreak(crit[cidx], len, cidx);
      } else if res == 0 {
        assert Xor(0, lit) == lit by { XorZero(lit); }
        IncWeightedBreak(lit, len, cidx);
      }
      crit[cidx] := Xor(crit[cidx], lit);
      Rebalance(sat0, crit0, wb0, cidx, res + 1, crit[cidx]);
    }

    /** One literal fewer of the clause is true. */
    method DecSatCnt(cidx: nat, lit: int, len: nat) returns (res: int)
      requires Wired() && Weighed() && Balanced() && cidx < |f| && IsLit(lit, n) && len == Capped(|f[cidx]|)
      requires CriticalOK(f, n, cidx, satcnt[..], crit[..]) && satcnt[cidx] > 0
      requires satcnt[cidx] == 1 ==> crit[cidx] == lit && Xor(crit[cidx], lit) == 0
      requires satcnt[cidx] == 2 ==> IsLit(Xor(crit[cidx], lit), n)
      modifies satcnt, crit, weightedbreak
      ensures Balanced() && res == old(satcnt[cidx]) - 1
      ensures satcnt[..] == old(satcnt[..])[cidx := res]
      ensures crit[..] == old(crit[..])[cidx := Xor(old(crit[cidx]), lit)]
    {
      hide Indexed, Occurrences.Stack, WeightsKept, Xor, Held;
      ghost var sat0, crit0, wb0 := satcnt[..], crit[..], weightedbreak[..];
      res := satcnt[cidx] - 1;
      satcnt[cidx] := res;
      var other := Xor(crit[cidx], lit);
      assert crit0[cidx] == crit[cidx];
      crit[cidx] := other;
      if res == 1 {
        IncWeightedBreak(other, len, cidx);
      } else if res == 0 {
        HeldContributes(n, sat0, crit0, clauseWeights, wb0, cidx, lit);
        DecWeightedBreak(lit, len, cidx);
      }
      Rebalance(sat0, crit0, wb0, cidx, res, other);
    }

    lemma Rebalance(sat0: seq<int>, crit0: seq<int>, wb0: seq<int>, c: nat, s: int, x: int)
      requires WeightsKept(n, sat0, crit0, clauseWeights, wb0) && c < |clauseWeights|
      requires satcnt[..] == sat0[c := s] && crit[..] == crit0[c := x]
      requires |weightedbreak[..]| == 2 * n
      requires forall l :: IsLit(l, n) ==>
                 weightedbreak[..][Ref(l)] == wb0[Ref(l)] + (if HeldBy(s, x, l) then clauseWeights[c] else 0)
                                                          - (if HeldBy(sat0[c], crit0[c], l) then clauseWeights[c] else 0)
      ensures Balanced()
    {
      CounterUpdate(n, sat0, crit0, clauseWeights, wb0, weightedbreak[..], c, s, x);
    }

    // ----- one flip -----------------------------------------------------------

    /** All of Synced but the counters, which may be under way from v to w. */
    ghost predicate Moving(v: seq<bool>, w: seq<bool>, done: set<int>)
      reads `clauseWeights, unsat, unsat.Footprint(), satcnt, crit, weightedbreak, weights
    {
      && Wired() && Apart() && Weighed() && Balanced() && Collected()
      && |v| == n && Midway(f, v, w, done, satcnt[..], crit[..])
    }

    /** A clause that contains the literal just made true. */
    method MakeClause(cidx: nat, lit: int, len: nat, ghost v: seq<bool>, ghost done: set<int>)
      requires |v| == n && IsLit(lit, n) && !True(v, lit) && Moving(v, Flipped(v, Abs(lit)), done)
      requires cidx < |f| && lit in f[cidx] && cidx !in done && len == Capped(|f[cidx]|)
      modifies satcnt, crit, weightedbreak, unsat.Footprint()
      ensures Moving(v, Flipped(v, Abs(lit)), done + {cidx})
      ensures fresh(unsat.Footprint() - old(unsat.Footprint()))
    {
      hide Indexed, Occurrences.Stack, WeightsKept, UnsatSet.Valid, Midway;
      ghost var sat0, crit0 := satcnt[..], crit[..];
      MakeStep(f, v, lit, done, sat0, crit0, cidx);
      var res := IncSatCnt(cidx, lit, len);
      assert crit0[cidx] == old(crit[cidx]) && sat0[cidx] == res;
      if res == 0 { unsat.Dequeue(cidx); }
    }

    /** A clause that contains the literal just made false. */
    method BreakClause(cidx: nat, lit: int, len: nat, ghost v: seq<bool>, ghost done: set<int>)
      requires |v| == n && IsLit(lit, n) && !True(v, lit) && Moving(v, Flipped(v, Abs(lit)), done)
      requires cidx < |f| && -lit in f[cidx] && lit !in f[cidx] && cidx !in done && len == Capped(|f[cidx]|)
      modifies satcnt, crit, weightedbreak, unsat.Footprint()
      ensures Moving(v, Flipped(v, Abs(lit)), done + {cidx})
      ensures fresh(unsat.Footprint() - old(unsat.Footprint()))
    {
      hide Indexed, Occurrences.Stack, WeightsKept, UnsatSet.Valid, Midway;
      ghost var sat0, crit0 := satcnt[..], crit[..];
      BreakStep(f, v, lit, done, sat0, crit0, cidx);
      assert crit0[cidx] == crit[cidx] && sat0[cidx] == satcnt[cidx];
      var res := DecSatCnt(cidx, -lit, len);
      if res == 0 { unsat.Enqueue(cidx); }
    }

    /** Visits the clauses of the literal just made true. */
    method MakeClauses(lit: int, ghost v: seq<bool>) returns (ghost done: set<int>)
      requires |v| == n && IsLit(lit, n) && !True(v, lit) && Moving(v, Flipped(v, Abs(lit)), {})
      modifies satcnt, crit, weightedbreak, unsat.Footprint()
      ensures Moving(v, Flipped(v, Abs(lit)), done)
      ensures forall c :: c in done <==> 0 <= c < |f| && lit in f[c]
      ensures fresh(unsat.Footprint() - old(unsat.Footprint()))
    {
      hide Wired, Balanced, Collected, Midway, Weighed, Apart, Visited, Occs;
      ghost var list := Occs(f, lit);
      ghost var k := 0;
      done := {};
      VisitedNone(list);
      ReadStart(lit);
      var p := refs[Ref(lit)];
      ReadIndex(lit, 0, p);
      while occs[p] >= 0
        invariant 0 <= k <= |list| && p == refs[Ref(lit)] + k && 0 <= p < |occs|
        invariant occs[p] < 0 <==> k == |list|
        invariant Moving(v, Flipped(v, Abs(lit)), done) && Visited(list, k, done)
        invariant fresh(unsat.Footprint() - old(unsat.Footprint()))
        decreases |list| - k
      {
        ReadIndex(lit, k, p);
        var len, cidx := LengthOf(occs[p]), ClauseOf(occs[p]);
        VisitNext(f, lit, k, done);
        MakeClause(cidx, lit, len, v, done);
        done, p, k := done + {cidx}, p + 1, k + 1;
        ReadIndex(lit, k, p);
      }
      VisitedAll(f, lit, done);
    }

    /** Visits the clauses of the literal just made false. */
    method BreakClauses(lit: int, ghost v: seq<bool>, ghost made: set<int>)
      requires |v| == n && IsLit(lit, n) && !True(v, lit) && Moving(v, Flipped(v, Abs(lit)), made)
      requires forall c :: c in made <==> 0 <= c < |f| && lit in f[c]
      modifies satcnt, crit, weightedbreak, unsat.Footprint()
      ensures Wired() && Apart() && Weighed() && Balanced() && Collected()
      ensures Counted(f, Flipped(v, Abs(lit)), satcnt[..], crit[..])
      ensures fresh(unsat.Footprint() - old(unsat.Footprint()))
    {
      hide Wired, Balanced, Collected, Midway, Weighed, Apart, Counted, Visited, Occs;
      ghost var list := Occs(f, -lit);
      ghost var k := 0;
      ghost var done: set<int> := {};
      assert made + done == made;
      VisitedNone(list);
      ReadStart(-lit);
      var p := refs[Ref(-lit)];
      ReadIndex(-lit, 0, p);
      while occs[p] >= 0
        invariant 0 <= k <= |list| && p == refs[Ref(-lit)] + k && 0 <= p < |occs|
        invariant occs[p] < 0 <==> k == |list|
        invariant Moving(v, Flipped(v, Abs(lit)), made + done) && Visited(list, k, done)
        invariant fresh(unsat.Footprint() - old(unsat.Footprint()))
        decreases |list| - k
      {
        ReadIndex(-lit, k, p);
        var len, cidx := LengthOf(occs[p]), ClauseOf(occs[p]);
        VisitNext(f, -lit, k, done);
        AllNormalisedOf(f, v, Flipped(v, Abs(lit)), made + done, satcnt[..], crit[..]);
        OneSided(f, |v|, cidx, -lit);
        BreakClause(cidx, lit, len, v, made + done);
        assert made + done + {cidx} == made + (done + {cidx});
        done, p, k := done + {cidx}, p + 1, k + 1;
        ReadIndex(-lit, k, p);
      }
      VisitedAll(f, -lit, done);
      FlipDone(f, v, lit, made + done, satcnt[..], crit[..]);
    }

    /** The break weight kept up to date: that of the clauses held by -lit alone. */
    function DynamicBreak(lit: int): int
      requires IsLit(lit, n) && weightedbreak.Length == 2 * n
      reads weightedbreak
    {
      weightedbreak[Ref(-lit)]
    }

    lemma DynamicBreakExact(lit: int)
      requires Synced() && IsLit(lit, n) && !True(vals[..], lit)
      ensures weightedbreak.Length == 2 * n
      ensures DynamicBreak(lit) == BrokenWeight(f, vals[..], clauseWeights, lit, |f|)
      ensures 0 <= DynamicBreak(lit) < UINT_MAX && CostIs(lit, DynamicBreak(lit))
    {
      hide Indexed, Occurrences.Stack, Held, BrokenWeight, Midway;
      RefFits(-lit, n);
      HeldIsBroken(f, vals[..], satcnt[..], crit[..], clauseWeights, lit, |f|);
      BrokenBounded(f, vals[..], clauseWeights, lit, |f|);
      assert weightedbreak[..][Ref(-lit)] == Held(satcnt[..], crit[..], clauseWeights, -lit, |clauseWeights|);
    }

    /** The break weight computed by scanning the clauses of -lit: the same
        value, and the saturating addition never saturates. */
    method ComputedBreak(lit: int) returns (res: int)
      requires Synced() && IsLit(lit, n) && !True(vals[..], lit)
      ensures Synced() && CostIs(lit, res)
    {
      hide Synced, Scanned, CostIs, True;
      res := 0;
      ScanStart(lit);
      var p := refs[Ref(-lit)];
      ghost var k, m := 0, 0;
      ScanCell(lit, k, m, p, res);
      while occs[p] >= 0
        invariant Synced() && !True(vals[..], lit)
        invariant Scanned(lit, k, m, p, res) && 0 <= p < |occs| && (occs[p] < 0 <==> k == Size(lit)) && k <= Size(lit)
        decreases Size(lit) - k
      {
        ScanCell(lit, k, m, p, res);
        var len, cidx := LengthOf(occs[p]), ClauseOf(occs[p]);
        ScanStep(lit, k, m, p, res);
        if satcnt[cidx] == 1 {
          var w := weights[len];
          res := if UINT_MAX - w < res then UINT_MAX else res + w;
        }
        p, k, m := p + 1, k + 1, cidx + 1;
        ScanCell(lit, k, m, p, res);
      }
      ScanDone(lit, m, p, res);
    }

    /** How many clauses hold -lit. */
    ghost function Size(lit: int): nat {
      |Occs(f, -lit)|
    }

    /** After k cells of the list of -lit, up to clause m, the break weight is res. */
    ghost predicate Scanned(lit: int, k: nat, m: nat, p: int, res: int)
      reads `clauseWeights, vals
    {
      && AllNormalised(f, vals.Length) && |clauseWeights| == |f| && IsLit(lit, vals.Length) && m <= |f| && k <= Size(lit)
      && |refs| == 2 * n && Ref(-lit) < |refs| && p == refs[Ref(-lit)] + k
      && m == (if k == 0 then 0 else ClauseOf(Occs(f, -lit)[k - 1]) + 1)
      && res == BrokenWeight(f, vals[..], clauseWeights, lit, m)
    }

    lemma ScanStart(lit: int)
      requires Synced() && IsLit(lit, n) && !True(vals[..], lit)
      ensures |refs| == 2 * n && Ref(-lit) < |refs| && Scanned(lit, 0, 0, refs[Ref(-lit)], 0)
    {
      IsWired();
      WeightRange();
      assert AllNormalised(f, n) && vals.Length == n;
      BrokenNone(f, vals[..], clauseWeights, lit);
      ReadStart(-lit);
    }

    lemma ScanCell(lit: int, k: nat, m: nat, p: int, res: int)
      requires Synced() && Scanned(lit, k, m, p, res) && IsLit(lit, n)
      ensures 0 <= p < |occs| && (occs[p] < 0 <==> k == Size(lit)) && k <= Size(lit)
      ensures k < Size(lit) ==> IsOccurrence(f, -lit, |f|, occs[p]) && occs[p] == Occs(f, -lit)[k]
    {
      hide Occs, BrokenWeight, IndexWired, MasksWired, AllNormalised;
      ReadIndex(-lit, k, p);
    }

    /** What one more cell of the list adds to the break weight. */
    lemma ScanStep(lit: int, k: nat, m: nat, p: int, res: int)
      requires Synced() && IsLit(lit, n) && !True(vals[..], lit) && k < Size(lit) && Scanned(lit, k, m, p, res)
      requires 0 <= p < |occs| && IsOccurrence(f, -lit, |f|, occs[p]) && occs[p] == Occs(f, -lit)[k]
      ensures var len, cidx := LengthOf(occs[p]), ClauseOf(occs[p]);
              && 0 <= cidx < satcnt.Length && 0 <= len < weights.Length && 0 <= res < UINT_MAX - 7 && 1 <= weights[len] <= 7
              && Scanned(lit, k + 1, cidx + 1, p + 1, res + if satcnt[cidx] == 1 then weights[len] else 0)
    {
      hide IndexWired, MasksWired, WeightsKept, BrokenWeight, Collected, Apart, Occs;
      var cidx := ClauseOf(occs[p]);
      ListGap(f, -lit, k);
      WeightRange();
      BrokenGap(f, vals[..], clauseWeights, lit, m, cidx);
      BrokenStep(f, vals[..], clauseWeights, lit, cidx);
      BrokenBounded(f, vals[..], clauseWeights, lit, m);
      assert CountedAt(f[cidx], vals[..], satcnt[..][cidx], crit[..][cidx]);
      assert clauseWeights[cidx] == weights[LengthOf(occs[p])];
    }

    lemma ScanDone(lit: int, m: nat, p: int, res: int)
      requires Synced() && IsLit(lit, n) && !True(vals[..], lit) && Scanned(lit, Size(lit), m, p, res)
      ensures CostIs(lit, res)
    {
      hide Occs, BrokenWeight, Synced;
      ListGap(f, -lit, Size(lit));
      BrokenGap(f, vals[..], clauseWeights, lit, m, |f|);
    }

    lemma WeightRange()
      requires Synced()
      ensures |clauseWeights| == |f| && forall k :: 0 <= k < |f| ==> 1 <= clauseWeights[k] <= 7
    {
      hide Indexed, Occurrences.Stack, Held;
    }

    /** A literal of the picked clause. Eager picking takes one that breaks the
        least weight, unless a random walk step intervenes. */
    method PickLiteral(cidx: nat) returns (lit: int)
      requires Synced() && cidx < |f| && satcnt[cidx] == 0
      ensures Synced() && lit in f[cidx] && IsLit(lit, n) && !True(vals[..], lit)
      ensures strat.eager ==>
                || LeastBreak(f, vals[..], clauseWeights, cidx, lit)
                || (strat.walk && AllBreak(f, vals[..], clauseWeights, cidx))
    {
      hide Indexed, Occurrences.Stack, BrokenWeight, Synced, Wired, LeastBreak, AllBreak;
      IsWired();
      FalsifiedLits(cidx);
      var cands, bestWeight, size := Candidates(cidx, strat.eager);
      if bestWeight > 0 { NothingFree(cidx, bestWeight); }
      var walked := false;
      if bestWeight > 0 && strat.walk { walked := *; }
      if walked {
        lit := WalkLiteral(cidx, size);
      } else {
        var pos :| 0 <= pos < |cands|;
        lit := cands[pos];
        assert lit in cands;
        if strat.eager { LeastOf(cidx, lit, bestWeight); }
      }
    }

    lemma LeastOf(cidx: nat, lit: int, bestWeight: int)
      requires cidx < |f| && CostIs(lit, bestWeight)
      requires forall l :: l in f[cidx] ==> exists w :: CostIs(l, w) && bestWeight <= w
      ensures LeastBreak(f, vals[..], clauseWeights, cidx, lit)
    {}

    lemma NothingFree(cidx: nat, bestWeight: int)
      requires Synced() && cidx < |f| && bestWeight > 0
      requires forall l :: l in f[cidx] ==> exists w :: CostIs(l, w) && bestWeight <= w
      ensures AllBreak(f, vals[..], clauseWeights, cidx)
    {
      hide IndexWired, MasksWired, Balanced, Collected, Apart, BrokenWeight, CountedAt;
      WeightRange();
      assert AllNormalised(f, vals.Length);
    }

    lemma IsWired()
      requires Synced()
      ensures Wired() && Apart()
    {}

    /** Any literal of the clause. */
    method WalkLiteral(cidx: nat, size: int) returns (lit: int)
      requires Synced() && cidx < |f| && size == |f[cidx]|
      ensures Synced() && lit in f[cidx]
    {
      hide Synced, MasksWired, Sized, Indexed, Occurrences.Stack;
      IsWired();
      StackSize(f, n, cdb, starts);
      var p := lits[cidx];
      assert p == starts[cidx];
      hide Wired, IndexWired;
      var pos :| 0 <= pos < size;
      ReadAt(f, n, cdb, starts, cidx, pos, p + pos);
      lit := cdb[p + pos];
    }

    /** The break weight of a false literal, in either mode. */
    method BreakOf(lit: int) returns (w: int)
      requires Synced() && IsLit(lit, n) && !True(vals[..], lit)
      ensures Synced() && CostIs(lit, w) && 0 <= w < UINT_MAX
    {
      hide Synced, True;
      DynamicBreakExact(lit);
      if useCrit { w := DynamicBreak(lit); } else { w := ComputedBreak(lit); }
    }

    /** All literals of the clause with the least break weight among them, or,
        when eager, only those that attain it. */
    method Candidates(cidx: nat, eager: bool) returns (cands: seq<int>, bestWeight: int, size: int)
      requires Synced() && cidx < |f| && satcnt[cidx] == 0
      ensures Synced() && cands != [] && (forall l :: l in cands ==> l in f[cidx]) && size == |f[cidx]|
      ensures forall l :: l in f[cidx] ==> exists w :: CostIs(l, w) && bestWeight <= w
      ensures eager ==> forall l :: l in cands ==> CostIs(l, bestWeight)
    {
      hide Considered, Synced, Wired, Occurrences.Stack, CostIs, DynamicBreak, Consider;
      ghost var c := f[cidx];
      IsWired();
      FalsifiedLits(cidx);
      ConsideredNone(c, eager);
      ClauseStart(cidx);
      cands, bestWeight := [], UINT_MAX;
      var p := lits[cidx];
      ghost var k := 0;
      ghost var costs: seq<int> := [];
      ReadAt(f, n, cdb, starts, cidx, 0, p);
      while cdb[p] != 0
        invariant Synced() && 0 <= k <= |c| && p == starts[cidx] + k && 0 <= p < |cdb|
        invariant cdb[p] == 0 <==> k == |c|
        invariant k < |c| ==> cdb[p] == c[k] && c[k] in c
        invariant Considered(c, k, costs, cands, bestWeight, eager)
        decreases |c| - k
      {
        var l := cdb[p];
        var w := BreakOf(l);
        ConsiderNext(c, k, costs, cands, bestWeight, eager, w);
        costs := costs + [w];
        var next := Consider(l, w, cands, bestWeight, eager);
        cands, bestWeight := next.0, next.1;
        p, k := p + 1, k + 1;
        ReadAt(f, n, cdb, starts, cidx, k, p);
      }
      ConsideredAll(c, costs, cands, bestWeight, eager);
      size := p - lits[cidx];
    }

    /** The first k literals with their costs, the least cost, and the candidates. */
    ghost predicate Considered(c: Clause, k: nat, costs: seq<int>, cands: seq<int>, bestWeight: int, eager: bool)
      reads `clauseWeights, vals
    {
      && k <= |c| && |costs| == k && Chosen(c[..k], costs, cands, bestWeight, eager)
      && forall j :: 0 <= j < k ==> CostIs(c[j], costs[j])
    }

    lemma ConsideredNone(c: Clause, eager: bool)
      ensures Considered(c, 0, [], [], UINT_MAX, eager)
    {}

    lemma ClauseStart(cidx: nat)
      requires Wired() && cidx < |f|
      ensures Occurrences.Stack(f, n, cdb, starts) && cidx < |lits| && |starts| == |f| + 1 && lits[cidx] == starts[cidx] && |f[cidx]| > 0
    {
      StackSize(f, n, cdb, starts);
    }

    lemma ConsiderNext(c: Clause, k: nat, costs: seq<int>, cands: seq<int>, bestWeight: int, eager: bool, w: int)
      requires k < |c| && Considered(c, k, costs, cands, bestWeight, eager) && CostIs(c[k], w) && w < UINT_MAX
      ensures var next := Consider(c[k], w, cands, bestWeight, eager);
              Considered(c, k + 1, costs + [w], next.0, next.1, eager)
    {
      hide CostIs, Chosen;
      TakeNext(c, k);
      ConsiderOne(c[k], w, cands, bestWeight, eager, c[..k], costs);
    }

    lemma ConsideredAll(c: Clause, costs: seq<int>, cands: seq<int>, bestWeight: int, eager: bool)
      requires c != [] && Considered(c, |c|, costs, cands, bestWeight, eager)
      ensures cands != [] && (forall l :: l in cands ==> l in c)
      ensures forall l :: l in c ==> exists w :: CostIs(l, w) && bestWeight <= w
      ensures eager ==> forall l :: l in cands ==> CostIs(l, bestWeight)
    {
      hide CostIs;
      assert c[..|c|] == c;
      forall l | l in c ensures exists w :: CostIs(l, w) && bestWeight <= w {
        var j :| 0 <= j < |c| && c[j] == l;
        assert CostIs(c[j], costs[j]);
      }
      forall l | eager && l in cands ensures CostIs(l, bestWeight) {
        var j :| 0 <= j < |c| && c[j] == l && costs[j] == bestWeight;
        assert CostIs(c[j], costs[j]);
      }
    }

    /** w is the weight of the clauses that making l true would falsify. */
    ghost predicate CostIs(l: int, w: int)
      reads `clauseWeights, vals
    {
      && AllNormalised(f, vals.Length) && |clauseWeights| == |f| && IsLit(l, vals.Length)
      && w == BrokenWeight(f, vals[..], clauseWeights, l, |f|)
    }

    lemma FalsifiedLits(cidx: nat)
      requires Synced() && cidx < |f| && satcnt[cidx] == 0
      ensures Normalised(f[cidx], n) && forall l :: l in f[cidx] ==> IsLit(l, n) && !True(vals[..], l)
      ensures NumTrue(f[cidx], vals[..]) == 0
    {
      hide Indexed, Occurrences.Stack, WeightsKept;
      assert CountedAt(f[cidx], vals[..], satcnt[..][cidx], crit[..][cidx]);
      NoneTrue(f[cidx], vals[..]);
    }

    // ----- the best assignment ------------------------------------------------

    ghost predicate Tracking()
      reads `visited, `bestMin, best
    {
      Tracks(f, n, trail, prepped, visited, best[..], bestMin)
    }

    /** The number of falsified clauses is the size of the unsatisfied set. */
    lemma CountIsFalsified()
      requires Synced()
      ensures AllNormalised(f, n) && unsat.Count() == |Falsified(f, vals[..])| <= |f|
    {
      hide Indexed, Occurrences.Stack, WeightsKept, NumTrue, CritTrue;
      unsat.ContentsDistinct();
      Cardinality(unsat.Contents());
      var s := set x | x in unsat.Contents();
      forall c | 0 <= c < |f| ensures NumTrue(f[c], vals[..]) == satcnt[c] {
        assert CountedAt(f[c], vals[..], satcnt[..][c], crit[..][c]);
      }
      assert s == Falsified(f, vals[..]);
      Below(s, |f|);
    }

    method CopyTo(to: array<bool>)
      requires to.Length == vals.Length == n && to != vals
      modifies to
      ensures to[..] == vals[..]
    {
      for i := 0 to n
        invariant to[..i] == vals[..i]
      {
        to[i] := vals[i];
      }
      assert to[..] == to[..n] && vals[..] == vals[..n];
    }

    /** The best assignment since the last restart. */
    method SaveTmp(nunsat: int)
      requires Sized()
      modifies `tmpMin, tmp
      ensures if nunsat < old(tmpMin) then tmpMin == nunsat && tmp[..] == vals[..] else tmpMin == old(tmpMin) && tmp[..] == old(tmp[..])
    {
      if tmpMin > nunsat {
        CopyTo(tmp);
        tmpMin := nunsat;
      }
    }

    /** The current assignment is counted, and kept where it is the best so far. */
    method SaveNewMinimum()
      requires Synced() && Tracking() && (prepped ==> Masked(trail, vals[..]))
      modifies `bestMin, `tmpMin, `hits, `visited, best, tmp
      ensures Searching() && Saves(f, old(Now()), Now()) && OnlySaves(old(Now()), Now()) && vals[..] == old(vals[..])
      ensures unsat.Footprint() == old(unsat.Footprint())
    {
      hide Synced, Falsified, Tracks, Masked, UnsatSet.Valid, Saves;
      BestApart();
      CountIsFalsified();
      ghost var was := Now();
      SaveIt(unsat.Count());
      StillTracks(was);
    }

    lemma BestApart()
      requires Synced()
      ensures Sized() && unsat.Valid() && best !in unsat.Footprint() && tmp !in unsat.Footprint() && best != vals && tmp != vals
    {}

    lemma StillTracks(was: Snap)
      requires Tracks(f, n, trail, prepped, was.visited, was.best, was.bestMin) && (prepped ==> Masked(trail, vals[..]))
      requires vals.Length == n && AllNormalised(f, n) && |Falsified(f, vals[..])| < INT_MAX && Saves(f, was, Now())
      ensures Tracking() && visited == was.visited + [vals[..]]
    {
      hide Falsified, Tracks, Masked;
      TracksNext(f, n, trail, prepped, was.visited, was.best, was.bestMin, vals[..]);
    }

    /** Both minima are updated for an assignment that leaves so many clauses falsified. */
    method SaveIt(nunsat: int)
      requires Sized() && AllNormalised(f, |vals[..]|) && nunsat == |Falsified(f, vals[..])|
      modifies `bestMin, `tmpMin, `hits, `visited, best, tmp
      ensures Saves(f, old(Now()), Now()) && OnlySaves(old(Now()), Now()) && vals[..] == old(vals[..])
    {
      hide Falsified;
      SaveTmp(nunsat);
      visited := visited + [vals[..]];
      SaveBest(nunsat);
    }

    /** The best assignment overall; an equal minimum is only counted. */
    method SaveBest(nunsat: int)
      requires Sized()
      modifies `bestMin, `hits, best
      ensures nunsat < old(bestMin) ==> bestMin == nunsat && best[..] == vals[..] && hits == 1
      ensures nunsat >= old(bestMin) ==> bestMin == old(bestMin) && best[..] == old(best[..])
      ensures nunsat >= old(bestMin) ==> hits == if nunsat == old(bestMin) then old(hits) + 1 else old(hits)
    {
      if bestMin < nunsat { return; }
      if bestMin == nunsat {
        hits := hits + 1;
        return;
      }
      bestMin, hits := nunsat, 1;
      CopyTo(best);
    }

    // ----- flips and restarts -------------------------------------------------

    /** Flips a literal of a falsified clause, and updates everything. */
    method Flip()
      requires Synced() && Tracking() && unsat.Contents() != [] && (prepped ==> Masked(trail, vals[..]))
      modifies `flips, `bestMin, `tmpMin, `hits, `visited, best, tmp, vals, satcnt, crit, weightedbreak, unsat.Footprint()
      ensures Searching() && fresh(unsat.Footprint() - old(unsat.Footprint()))
      ensures FlipsOnce(f, old(Now()), Now())
    {
      hide Searching, Synced, Tracks, Masked, Falsified, FlipsFalsified, Picked, Saves, Now, FlipsOnce, OnlySaves, UnsatSet.Footprint;
      ghost var was := Now();
      ghost var c, lit := FlipStep();
      ghost var mid := Now();
      SaveNewMinimum();
      FlippedOnce(f, was, mid, Now(), c, lit);
    }

    lemma MaskedKept(v: seq<bool>, c: nat, lit: int)
      requires Wired() && prepped && Masked(trail, v) && |v| == n && c < |f| && lit in f[c] && IsLit(lit, n)
      ensures Masked(trail, Flipped(v, Abs(lit)))
    {
      MaskedFlip(f, trail, v, c, lit);
    }

    method FlipStep() returns (ghost c: nat, ghost flipped: int)
      requires Synced() && Tracking() && unsat.Contents() != [] && (prepped ==> Masked(trail, vals[..]))
      modifies `flips, vals, satcnt, crit, weightedbreak, unsat.Footprint()
      ensures Synced() && Tracking() && (prepped ==> Masked(trail, vals[..]))
      ensures fresh(unsat.Footprint() - old(unsat.Footprint()))
      ensures FlipsFalsified(f, old(Now()).v, Now().v, c, flipped) && Picked(f, old(Now()), c, flipped)
      ensures Now() == old(Now()).(v := vals[..], flips := old(Now()).flips + 1)
      ensures PickRight(pick, old(unsat.Contents()), old(flips), c)
    {
      hide Synced, Tracks, Masked, Falsified, IndexWired, MasksWired, CriticalOK, BrokenWeight, LeastBreak, AllBreak, PickRight;
      NotInner(inner, unsat);
      IsWired();
      var cidx := PickClause();
      IsWired();
      FalsifiedLits(cidx);
      var lit := PickLiteral(cidx);
      c, flipped := cidx, lit;
      flips := flips + 1;
      if prepped { MaskedKept(vals[..], c, lit); }
      FlipLiteral(lit);
    }

    method PickClause() returns (cidx: nat)
      requires Synced() && unsat.Contents() != []
      modifies unsat.Footprint()
      ensures Synced() && cidx < |f| && satcnt[cidx] == 0 && unsat.Footprint() == old(unsat.Footprint())
      ensures PickRight(pick, old(unsat.Contents()), flips, cidx)
    {
      hide IndexWired, MasksWired, Weighed, Balanced, Tally.Counted, UnsatSet.Valid, PickRight;
      unsat.ContentsDistinct();
      cidx := unsat.Pick(pick, flips);
    }

    method FlipLiteral(lit: int)
      requires Synced() && IsLit(lit, n) && !True(vals[..], lit)
      modifies vals, satcnt, crit, weightedbreak, unsat.Footprint()
      ensures Synced() && vals[..] == Flipped(old(vals[..]), Abs(lit))
      ensures fresh(unsat.Footprint() - old(unsat.Footprint()))
    {
      hide IndexWired, MasksWired, WeightsKept;
      ghost var v := vals[..];
      vals[Abs(lit)] := !vals[Abs(lit)];
      assert vals[..] == Flipped(v, Abs(lit));
      StartFlip(f, v, vals[..], satcnt[..], crit[..]);
      hide Tally.Counted, Midway, Balanced, UnsatSet.Valid;
      assert Moving(v, Flipped(v, Abs(lit)), {});
      VisitClauses(lit, v);
    }

    /** Both visiting passes of a flip. */
    method VisitClauses(lit: int, ghost v: seq<bool>)
      requires |v| == n && IsLit(lit, n) && !True(v, lit) && Moving(v, Flipped(v, Abs(lit)), {})
      modifies satcnt, crit, weightedbreak, unsat.Footprint()
      ensures Wired() && Apart() && Weighed() && Balanced() && Collected()
      ensures Counted(f, Flipped(v, Abs(lit)), satcnt[..], crit[..])
      ensures fresh(unsat.Footprint() - old(unsat.Footprint()))
    {
      hide Wired, Apart, Weighed, Balanced, Collected, Tally.Counted, Midway;
      ghost var made := MakeClauses(lit, v);
      BreakClauses(lit, v, made);
    }

    // ----- recomputing everything after a restart -----------------------------

    /** The weight of each clause length under the strategy. */
    method SetWeights()
      requires Wired() && 1 <= strat.weight <= 7
      modifies weights, `clauseWeights
      ensures Weighed() && Light(clauseWeights) && WeightsAre(f, strat, clauseWeights)
    {
      hide Occurrences.Stack, Indexed, MasksWired, WeightOf;
      for len := 1 to MAX_LEN + 1
        invariant forall j :: 1 <= j < len ==> 1 <= weights[j] <= 7 && WeightOf(strat, j, weights[j])
      {
        weights[len] := LenToWeight(strat, len);
      }
      clauseWeights := ClauseWeights(f, weights[..]);
    }

    /** The first i clauses are counted, weighed and collected. */
    ghost predicate Recounted(i: nat)
      reads `clauseWeights, unsat, unsat.Footprint(), vals, satcnt, crit, weightedbreak, weights
    {
      && Wired() && Apart() && Weighed() && CollectedTo(i)
      && CountedTo(f, n, vals[..], satcnt[..], crit[..], clauseWeights, weightedbreak[..], i)
    }

    ghost predicate CollectedTo(i: nat)
      reads unsat, unsat.Footprint(), satcnt
    {
      && unsat.Valid() && unsat.size == satcnt.Length && i <= satcnt.Length
      && forall c :: c in unsat.Contents() <==> 0 <= c < i && satcnt[c] == 0
    }

    /** Counts the true literals of a clause and takes their exclusive or. */
    method TallyClause(cidx: nat) returns (sat: int, x: int, len: int)
      requires Wired() && AllNormalised(f, n) && cidx < |f|
      ensures CountedAt(f[cidx], vals[..], sat, x) && len == |f[cidx]|
    {
      hide Indexed, Occurrences.Stack, MasksWired;
      StackSize(f, n, cdb, starts);
      ghost var c, v := f[cidx], vals[..];
      assert Normalised(c, n);
      var p := lits[cidx];
      assert p == starts[cidx];
      hide Wired, IndexWired, Normalised, NumTrue, CritTrue, Xor;
      sat, x := 0, 0;
      ghost var k := 0;
      ReadAt(f, n, cdb, starts, cidx, 0, p);
      TallyNothing(c, v);
      while cdb[p] != 0
        invariant 0 <= k <= |c| && p == starts[cidx] + k && 0 <= p < |cdb| && LitsOver(c, n)
        invariant (cdb[p] == 0 <==> k == |c|) && (k < |c| ==> cdb[p] == c[k])
        invariant sat == NumTrue(c[..k], v) && x == CritTrue(c[..k], v)
        decreases |c| - k
      {
        TallyStep(c, v, k);
        if LitTrue(cdb[p]) {
          x := Xor(x, cdb[p]);
          sat := sat + 1;
        }
        p, k := p + 1, k + 1;
        ReadAt(f, n, cdb, starts, cidx, k, p);
      }
      assert c[..k] == c;
      len := p - lits[cidx];
    }

    function LitTrue(lit: int): bool
      requires IsLit(lit, n) && vals.Length == n
      reads vals
    {
      if lit > 0 then vals[lit] else !vals[-lit]
    }

    /** Recomputes counters, critical literals, break weights and the
        unsatisfied set from the assignment. */
    method UpdateSatAndUnsat()
      requires Wired() && Apart() && unsat.Valid() && 1 <= strat.weight <= 7
      modifies `clauseWeights, satcnt, crit, weightedbreak, weights, unsat.Footprint()
      ensures Synced() && WeightsAre(f, strat, clauseWeights) && fresh(unsat.Footprint() - old(unsat.Footprint()))
    {
      hide IndexWired, MasksWired, UnsatSet.Valid, Light, WeightsAre;
      unsat.Reset();
      SetWeights();
      ZeroWeightedBreak();
      StartRecount();
      RecountClauses();
    }

    method ZeroWeightedBreak()
      requires weightedbreak.Length == 2 * n
      modifies weightedbreak
      ensures forall i :: 0 <= i < 2 * n ==> weightedbreak[i] == 0
    {
      for j := 0 to 2 * n
        invariant forall i :: 0 <= i < j ==> weightedbreak[i] == 0
      {
        weightedbreak[j] := 0;
      }
    }

    method RecountClauses()
      requires Recounted(0)
      modifies satcnt, crit, weightedbreak, unsat.Footprint()
      ensures Synced() && fresh(unsat.Footprint() - old(unsat.Footprint()))
    {
      hide Recounted, Synced;
      IndexSize();
      var cidx := 0;
      while cidx < |lits|
        invariant 0 <= cidx <= |lits| == |f| && Recounted(cidx)
        invariant fresh(unsat.Footprint() - old(unsat.Footprint()))
      {
        RecountClause(cidx);
        cidx := cidx + 1;
      }
      EndRecount();
    }

    lemma IndexSize()
      requires Recounted(0)
      ensures |lits| == |f|
    {
      hide Indexed, MasksWired, CountedTo, CollectedTo;
      StackSize(f, n, cdb, starts);
    }

    lemma StartRecount()
      requires Wired() && Apart() && Weighed() && Light(clauseWeights)
      requires (forall i :: 0 <= i < 2 * n ==> weightedbreak[i] == 0) && unsat.Valid() && unsat.Contents() == []
      ensures Recounted(0)
    {
      hide Indexed, MasksWired, UnsatSet.Valid;
      forall l | IsLit(l, n) ensures weightedbreak[Ref(l)] == 0 { RefFits(l, n); }
    }

    lemma EndRecount()
      requires Recounted(|f|)
      ensures Synced()
    {
      hide IndexWired, MasksWired, UnsatSet.Valid, CountedAt, Held;
    }

    method RecountClause(cidx: nat)
      requires Recounted(cidx) && cidx < |f|
      modifies satcnt, crit, weightedbreak, unsat.Footprint()
      ensures Recounted(cidx + 1) && fresh(unsat.Footprint() - old(unsat.Footprint()))
    {
      hide IndexWired, MasksWired, UnsatSet.Valid, CountedAt, CountedTo;
      RecountedSizes(cidx);
      var sat, x, len := TallyClause(cidx);
      StoreTally(cidx, sat, x, len);
      assert Wired() && Apart() && Weighed();
      if sat == 0 { unsat.Enqueue(cidx); }
    }

    lemma RecountedSizes(i: nat)
      requires Recounted(i)
      ensures AllNormalised(f, n)
    {}

    method StoreTally(cidx: nat, sat: int, x: int, len: int)
      requires Wired() && Weighed() && cidx < |f| && len == |f[cidx]| && CountedAt(f[cidx], vals[..], sat, x)
      requires CountedTo(f, n, vals[..], satcnt[..], crit[..], clauseWeights, weightedbreak[..], cidx)
      modifies satcnt, crit, weightedbreak
      ensures CountedTo(f, n, vals[..], satcnt[..], crit[..], clauseWeights, weightedbreak[..], cidx + 1)
      ensures satcnt[..] == old(satcnt[..])[cidx := sat]
    {
      hide IndexWired, MasksWired, CountedAt, CountedTo;
      if sat == 1 { CritIsLit(f[cidx], vals[..], sat, x); }
      ghost var sat0, crit0, wb0 := satcnt[..], crit[..], weightedbreak[..];
      crit[cidx] := x;
      satcnt[cidx] := sat;
      assert Weighed();
      if sat == 1 { IncWeightedBreak(x, Capped(len), cidx); }
      assert satcnt[..] == sat0[cidx := sat] && crit[..] == crit0[cidx := x];
      CountNext(f, n, vals[..], sat0, crit0, clauseWeights, wb0, cidx, sat, x, weightedbreak[..]);
    }

    // ----- restarts and the loops ---------------------------------------------

    /** A new assignment: the best, the current, or any other (cached, all
        positive, all negative, random, forced phases), then the unit masks. */
    method PickAssignment(initial: bool)
      requires Wired()
      modifies vals
      ensures prepped ==> Masked(trail, vals[..])
      ensures Taken(options, initial, maskSet, maskClear, old(Now()), strat, vals[..])
    {
      hide IndexWired, UnitsApart, Consistent;
      if !initial && options.best {
        for i := 0 to n
          invariant vals[..i] == best[..i]
        {
          vals[i] := best[i];
        }
        assert vals[..] == best[..];
      } else if initial || !options.keep {
        var cache: bool := *;
        if !initial && strat.cached && cache { AnyBits(); } else { PolarBits(); }
      }
      SetUnits();
      if prepped { MasksForce(trail, n, maskSet, maskClear, vals[..]); }
    }

    method AnyBits()
      requires vals.Length == n
      modifies vals
    {
      for i := 0 to n { vals[i] := *; }
    }

    /** All false, all true, or random, by the polarity. */
    method PolarBits()
      requires vals.Length == n
      modifies vals
      ensures strat.pol != 0 ==> vals[..] == Polar(strat.pol, n)
    {
      if strat.pol == 0 {
        AnyBits();
        return;
      }
      for i := 0 to n
        invariant forall j :: 0 <= j < i ==> vals[j] == (strat.pol > 0)
      {
        vals[i] := strat.pol > 0;
      }
      assert vals[..] == Polar(strat.pol, n);
    }

    method SetUnits()
      requires vals.Length == |maskSet| == |maskClear| == n
      modifies vals
      ensures vals[..] == Forced(maskSet, maskClear, old(vals[..])) == Forced(maskSet, maskClear, vals[..])
    {
      for i := 0 to n
        invariant forall j :: 0 <= j < i ==> vals[j] == ((old(vals[j]) && maskClear[j]) || maskSet[j])
        invariant forall j :: i <= j < n ==> vals[j] == old(vals[j])
      {
        vals[i] := (vals[i] && maskClear[i]) || maskSet[i];
      }
    }

    ghost function Frame(): set<object>
      reads this, unsat, unsat.queue
    {
      {this, vals, best, tmp, satcnt, crit, weightedbreak, weights, inner} + unsat.Footprint()
    }

    /** All state agrees with the current assignment, which was the last visited. */
    ghost predicate Searching()
      reads `clauseWeights, `visited, `bestMin, unsat, unsat.Footprint(), vals, best, satcnt, crit, weightedbreak, weights
    {
      && Synced() && Tracking() && (prepped ==> Masked(trail, vals[..]))
      && visited != [] && visited[|visited| - 1] == vals[..]
    }

    /** Moves to a new assignment under the given strategy. */
    method Restart(initial: bool, s: Strategy)
      requires Wired() && Apart() && unsat.Valid() && Tracking() && 1 <= s.weight <= 7
      modifies `strat, `clauseWeights, `bestMin, `tmpMin, `hits, `visited, vals, best, tmp, satcnt, crit, weightedbreak, weights
      modifies unsat.Footprint()
      ensures Searching() && fresh(unsat.Footprint() - old(unsat.Footprint()))
      ensures strat == Fixed(options, s) && WeightsAre(f, strat, clauseWeights)
      ensures Saves(f, old(Now()).(tmpMin := INT_MAX), Now())
      ensures Taken(options, initial, maskSet, maskClear, old(Now()), strat, vals[..])
    {
      hide Synced, Masked, Tracks, Falsified, WeightsAre, Taken, Forced, UnsatSet.Valid, Wired, Apart;
      hide Searching, Now, Saves, OnlySaves, UnsatSet.Footprint;
      ghost var was := Now();
      MoveTo(initial, s);
      ForgetTmp();
      ghost var mid := Now();
      SaveNewMinimum();
      SavesSame(f, mid, was.(tmpMin := INT_MAX), Now());
    }

    /** The minimum since the last restart is forgotten. */
    method ForgetTmp()
      requires Synced() && Tracking()
      modifies `tmpMin
      ensures Synced() && Tracking() && unsat.Footprint() == old(unsat.Footprint())
      ensures Now() == old(Now()).(tmpMin := INT_MAX)
    {
      hide Synced, Tracking;
      NotOurs(this, unsat);
      tmpMin := INT_MAX;
    }

    /** Picks the assignment and recomputes everything from it. */
    method MoveTo(initial: bool, s: Strategy)
      requires Wired() && Apart() && unsat.Valid() && Tracking() && 1 <= s.weight <= 7
      modifies `strat, `clauseWeights, vals, satcnt, crit, weightedbreak, weights, unsat.Footprint()
      ensures Synced() && Tracking() && (prepped ==> Masked(trail, vals[..]))
      ensures fresh(unsat.Footprint() - old(unsat.Footprint()))
      ensures strat == Fixed(options, s) && WeightsAre(f, strat, clauseWeights)
      ensures Now() == old(Now()).(v := vals[..], w := clauseWeights, strat := strat)
      ensures Taken(options, initial, maskSet, maskClear, old(Now()), strat, vals[..])
    {
      hide IndexWired, MasksWired, Synced, UnsatSet.Valid, Masked, Tracks, Falsified, WeightsAre, Forced;
      NotInner(inner, unsat);
      strat := Fixed(options, s);
      PickAssignment(initial);
      UpdateSatAndUnsat();
    }

    /** The default strategy at the first restart, and either that or a random one later. */
    method PickStrategy() returns (s: Strategy)
      requires ValidOptions(options)
      ensures Offered(options, count, s)
    {
      var random: bool := *;
      if count == 1 || !random { return options.strategy; }
      var eager: bool, walk: bool, cached: bool := *, *, *;
      var pol: int, uni: int := *, *;
      var weight: int :| 1 <= weight <= 7;
      if cached { pol := options.strategy.pol; }
      s := Strategy(eager, walk, cached, pol, uni, weight);
    }

    /** An inner restart; it is skipped when the best improved since the last one. */
    method RestartInner()
      requires Searching() && Paced() && inner.Valid() && flips <= Luby.INT64_MAX
      modifies Frame()
      ensures Searching() && inner.Valid() && fresh(unsat.Footprint() - old(unsat.Footprint()))
      ensures RestartsInner(f, options, maskSet, maskClear, old(Now()), Now())
    {
      hide Searching, WeightsAre, Taken, Luby.Restarts.Valid, Luby.LimitAfter, Wired, Apart, UnsatSet.Valid, Tracking;
      hide Saves, RestartsInner, Paced, Forced;
      hide Now, Restarted;
      ghost var was := Now();
      StandsAt();
      NextInterval();
      ghost var a := Now();
      StandsAt();
      if bestMin >= lastMin {
        NewStart();
        RestartedInner(f, options, maskSet, maskClear, was, a, Now());
      } else {
        KeptInner(f, options, maskSet, maskClear, was, a);
      }
      RememberBest();
      StandsAt();
    }

    method RememberBest()
      requires Searching() && inner.Valid()
      modifies `lastMin
      ensures Searching() && inner.Valid() && Now() == old(Now()).(last := old(bestMin)) && unsat.Footprint() == old(unsat.Footprint())
    {
      hide Searching, Luby.Restarts.Valid;
      NotOurs(this, unsat);
      lastMin := bestMin;
    }

    lemma StandsAt()
      ensures Now().bestMin == bestMin && Now().last == lastMin && Now().flips == flips && Now().outerInterval == outerInterval
      ensures Now().v == vals[..] && Now().calls == inner.calls && Now().count == count && Now().outerLim == outerLim
    {}

    /** Counts the restart and sets the limit of the next one. */
    method NextInterval()
      requires Searching() && Paced() && inner.Valid() && flips <= Luby.INT64_MAX
      modifies `count, inner
      ensures Searching() && inner.Valid() && unsat.Footprint() == old(unsat.Footprint())
      ensures Now() == old(Now()).(count := old(count) + 1, calls := old(inner.calls) + 1,
                                   lim := Luby.LimitAfter(InnerBase(options, |vals[..]|), options.reluctant, old(inner.calls), flips))
    {
      hide Synced, Tracking, Masked, Luby.Restarts.Valid, Luby.LimitAfter, UnsatSet.Valid;
      SearchSize();
      NotInner(inner, unsat);
      count := count + 1;
      var longer := inner.IncInnerRestartInterval(flips);
    }

    lemma SearchSize()
      requires Searching()
      ensures vals.Length == n
    {
      hide IndexWired, MasksWired, Tracks, Masked, Tally.Counted, Weighed, Balanced, UnsatSet.Valid;
    }

    /** A new assignment under a new strategy. */
    method NewStart()
      requires Searching() && Paced() && inner.Valid()
      modifies `strat, `clauseWeights, `bestMin, `tmpMin, `hits, `visited, vals, best, tmp, satcnt, crit, weightedbreak, weights
      modifies unsat.Footprint()
      ensures Searching() && inner.Valid() && fresh(unsat.Footprint() - old(unsat.Footprint()))
      ensures Restarted(f, options, maskSet, maskClear, old(Now()), Now())
    {
      hide Searching, WeightsAre, Taken, Luby.Restarts.Valid, Wired, Apart, UnsatSet.Valid, Tracking, Saves, Forced;
      NotInner(inner, unsat);
      var s := PickStrategy();
      StillWired();
      Restart(false, s);
    }

    /** 1 when few enough clauses are falsified, else -1 when a limit is reached or
        the caller asks to stop, else 0. */
    method Done(limits: Limits, stop: bool) returns (res: int)
      requires Searching()
      ensures Searching() && unsat.Footprint() == old(unsat.Footprint()) && Now() == old(Now())
      ensures res == 1 <==> Reached(f, limits, Now())
      ensures res == -1 <==> !Reached(f, limits, Now()) && (Over(limits, Now()) || stop)
      ensures res == 1 || res == -1 || res == 0
    {
      hide IndexWired, MasksWired, Tracks, Masked, Tally.Counted, Weighed, Balanced, UnsatSet.Valid;
      CountIsFalsified();
      if unsat.Count() <= limits.target { return 1; }
      if limits.flips >= 0 && limits.flips <= flips { return -1; }
      if stop { return -1; }
      if limits.hits >= 0 && hits >= limits.hits { return -1; }
      return 0;
    }

    /** How a loop ended: at the target, at a limit or out of its budget, or at an outer restart. */
    ghost predicate Ended(limits: Limits, res: int, left: nat)
      reads this, vals, best, tmp, inner
    {
      && (res == 1 || res == -1 || res == 0) && flips + left <= Luby.INT64_MAX
      && (res == 1 <==> Reached(f, limits, Now()))
      && (res == -1 ==> Over(limits, Now()) || left == 0)
      && (res == 0 ==> !Over(limits, Now()) && OuterDue(Now()) && left > 0)
    }

    /** Flips and restarts until done or until the next outer restart; the caller
        asks to stop after `budget` iterations. */
    method InnerLoop(limits: Limits, budget: nat) returns (res: int, left: nat, ghost path: seq<Snap>)
      requires Searching() && Paced() && flips + budget <= Luby.INT64_MAX
      modifies Frame()
      ensures Searching() && inner.Valid() && fresh(unsat.Footprint() - old(unsat.Footprint()))
      ensures path != [] && Path(f, options, limits, maskSet, maskClear, path) && Last(path) == Now()
      ensures path[0] == old(Now()).(calls := 0, lim := old(flips))
      ensures left + |path| == budget + 1 && Ended(limits, res, left) && Now().outerInterval == old(Now()).outerInterval
    {
      hide Searching, Reached, Path, Moves, Luby.Restarts.Valid, Paced, Now, Over;
      StandsAt();
      NotInner(inner, unsat);
      StartInner();
      left := budget;
      path := [Now()];
      OnePath(f, options, limits, maskSet, maskClear, Now());
      while true
        invariant Searching() && inner.Valid() && Now().flips + left <= Luby.INT64_MAX
        invariant Path(f, options, limits, maskSet, maskClear, path) && path != [] && Last(path) == Now()
        invariant path[0] == old(Now()).(calls := 0, lim := old(flips)) && left + |path| == budget + 1
        invariant fresh(unsat.Footprint() - old(unsat.Footprint())) && Now().outerInterval == old(Now()).outerInterval
        decreases left
      {
        StandsAt();
        res := Done(limits, left == 0);
        if res != 0 { return; }
        if flips >= outerLim { return; }
        ghost var was := Now();
        Move(limits);
        left := left - 1;
        StandsAt();
        MoveKeeps(f, options, limits, maskSet, maskClear, was, Now());
        PathMore(f, options, limits, maskSet, maskClear, path, Now());
        path := path + [Now()];
      }
    }

    /** A restart when one is due, and else a flip. */
    method Move(ghost limits: Limits)
      requires Searching() && Paced() && inner.Valid() && GoesOn(f, limits, Now()) && flips <= Luby.INT64_MAX
      modifies Frame()
      ensures Searching() && inner.Valid() && fresh(unsat.Footprint() - old(unsat.Footprint()))
      ensures Moves(f, options, limits, maskSet, maskClear, old(Now()), Now())
    {
      hide Searching, Reached, RestartsInner, FlipsOnce, Luby.Restarts.Valid, Paced, Over, OuterDue, UnsatSet.Footprint;
      if !(options.uniform && count >= options.unirestarts) && flips >= inner.lim {
        RestartInner();
      } else {
        FlipOnce(limits);
      }
    }

    /** The first inner restart is due at once. */
    method StartInner()
      requires Searching() && Paced() && flips <= Luby.INT64_MAX
      modifies inner
      ensures Searching() && inner.Valid() && unsat.Footprint() == old(unsat.Footprint())
      ensures Now() == old(Now()).(calls := 0, lim := flips)
    {
      hide Searching, Luby.Restarts.Valid;
      PacedBase();
      NotInner(inner, unsat);
      inner.Init(flips);
    }

    lemma PacedBase()
      requires Paced()
      ensures inner.restart <= INT_MAX
    {}

    lemma WiredSize()
      requires Wired()
      ensures vals.Length == n
    {}

    lemma CountOf()
      requires Searching()
      ensures unsat.Valid() && vals.Length == n && AllNormalised(f, n) && |unsat.Contents()| == |Falsified(f, vals[..])|
    {
      hide Wired, Apart, Tracks, Masked, Tally.Counted, Weighed, Balanced, UnsatSet.Valid;
      SearchSize();
      CountIsFalsified();
    }

    /** One flip under the strategy. */
    method FlipOnce(ghost limits: Limits)
      requires Searching() && inner.Valid() && !Reached(f, limits, Now())
      modifies Frame()
      ensures Searching() && inner.Valid() && fresh(unsat.Footprint() - old(unsat.Footprint()))
      ensures FlipsOnce(f, old(Now()), Now())
    {
      hide Synced, Tracks, Masked, UnsatSet.Valid, Luby.Restarts.Valid, Picked, FlipsFalsified, Falsified;
      NotInner(inner, unsat);
      CountOf();
      Flip();
    }

    /** The first limit of outer restarts. */
    method InitOuterRestartInterval()
      requires Wired() && Apart() && unsat.Valid() && Tracking() && Paced() && 0 <= outerInterval <= Luby.INT64_MAX
      modifies `outerInterval, `outerLim
      ensures Wired() && Apart() && unsat.Valid() && Tracking() && unsat.Footprint() == old(unsat.Footprint())
      ensures Now() == OuterFirst(options, old(Now())) && 0 <= outerInterval <= Luby.INT64_MAX
    {
      hide Interval, Wired, Apart, UnsatSet.Valid, Tracking;
      WiredSize();
      NotOurs(this, unsat);
      IntervalFits(options, n);
      if options.outer {
        outerInterval := Interval(options, vals.Length) * options.factor;
        outerLim := flips + outerInterval;
      } else {
        outerLim := Luby.INT64_MAX;
      }
    }

    /** The next limit of outer restarts. */
    method RestartOuter()
      requires Wired() && Apart() && unsat.Valid() && Tracking()
      requires 0 <= outerInterval <= Luby.INT64_MAX && flips <= Luby.INT64_MAX
      modifies `outerInterval, `outerLim
      ensures Wired() && Apart() && unsat.Valid() && Tracking() && unsat.Footprint() == old(unsat.Footprint())
      ensures Now() == OuterNext(old(Now())) && 0 <= outerInterval <= Luby.INT64_MAX
    {
      hide Wired, Apart, UnsatSet.Valid, Tracking;
      NotOurs(this, unsat);
      var interval := outerInterval;
      if outerInterval <= Luby.INT64_MAX / 2 { outerInterval := outerInterval * 2; } else { outerInterval := Luby.INT64_MAX; }
      if Luby.INT64_MAX - flips >= interval { outerLim := flips + interval; } else { outerLim := Luby.INT64_MAX; }
    }

    /** Starts afresh from a new assignment at every outer restart. */
    method OuterLoop(limits: Limits, budget: nat) returns (res: int, ghost rounds: seq<seq<Snap>>)
      requires Wired() && Paced() && Apart() && unsat.Valid() && Tracking() && flips + budget <= Luby.INT64_MAX
      requires 0 <= outerInterval <= Luby.INT64_MAX
      modifies Frame()
      ensures Searching() && Whole(f, options, limits, maskSet, maskClear, OuterFirst(options, old(Now())), rounds, budget)
      ensures Last(rounds[|rounds| - 1]) == Now()
      ensures res == if Reached(f, limits, Now()) then 1 else -1
    {
      hide Searching, Wired, Paced, Apart, UnsatSet.Valid, Tracking, Rounds, Reached, Path, Begins, Between, Steps, Now, Over, Whole;
      StandsAt();
      InitOuterRestartInterval();
      StandsAt();
      ghost var start := Now();
      rounds := [];
      NoRounds(f, options, limits, maskSet, maskClear, start);
      var left: nat := budget;
      while true
        invariant Wired() && Paced() && Apart() && unsat.Valid() && Tracking() && flips + left <= Luby.INT64_MAX
        invariant 0 <= outerInterval <= Luby.INT64_MAX && left + Steps(rounds) + 1 == budget
        invariant Between(f, options, limits, maskSet, maskClear, start, rounds, Now())
        invariant fresh(unsat.Footprint() - old(unsat.Footprint()))
        decreases left
      {
        var before := left;
        ghost var path;
        ghost var was := Now();
        StandsAt();
        res, left, path := Round(limits, before);
        RoundsMore(f, options, limits, maskSet, maskClear, start, rounds, was, path);
        rounds := rounds + [path];
        StandsAt();
        if res != 0 {
          WholeNow(f, options, limits, maskSet, maskClear, start, rounds, budget);
          return;
        }
        BetweenNext(f, options, limits, maskSet, maskClear, start, rounds);
        RestartOuter();
        StandsAt();
        left := left - 1;
      }
    }

    /** One outer round: a fresh start and its inner loop. */
    method Round(limits: Limits, budget: nat) returns (res: int, left: nat, ghost path: seq<Snap>)
      requires Wired() && Paced() && Apart() && unsat.Valid() && Tracking() && flips + budget <= Luby.INT64_MAX
      modifies Frame()
      ensures Searching() && fresh(unsat.Footprint() - old(unsat.Footprint()))
      ensures Wired() && Apart() && unsat.Valid() && Tracking()
      ensures path != [] && Path(f, options, limits, maskSet, maskClear, path) && Last(path) == Now()
      ensures Begins(f, options, maskSet, maskClear, old(Now()), path[0])
      ensures left + |path| == budget + 1 && Ended(limits, res, left) && Now().outerInterval == old(Now()).outerInterval
    {
      hide Searching, Wired, Paced, Apart, UnsatSet.Valid, Tracking, Path, Begins, Now, Over, Reached;
      StandsAt();
      Begin();
      StandsAt();
      res, left, path := InnerLoop(limits, budget);
      StandsAt();
      StillWired();
    }

    /** A new assignment under the default strategy. */
    method Begin()
      requires Wired() && Paced() && Apart() && unsat.Valid() && Tracking()
      modifies Frame()
      ensures Searching() && fresh(unsat.Footprint() - old(unsat.Footprint()))
      ensures Begins(f, options, maskSet, maskClear, old(Now()), Now().(calls := 0, lim := old(flips)))
      ensures flips == old(flips) && Now().outerInterval == old(Now()).outerInterval
    {
      hide Searching, Wired, Apart, UnsatSet.Valid, Tracking, WeightsAre, Falsified;
      NotInner(inner, unsat);
      Restart(true, options.strategy);
      RememberCount();
    }

    method RememberCount()
      requires Searching()
      modifies `lastMin
      ensures Searching() && unsat.Footprint() == old(unsat.Footprint())
      ensures AllNormalised(f, n) && vals.Length == n && lastMin == |Falsified(f, vals[..])|
    {
      hide Searching, Falsified;
      SearchSize();
      CountOf();
      NotOurs(this, unsat);
      lastMin := unsat.Count();
    }

    lemma StillWired()
      requires Searching()
      ensures Wired() && Apart() && unsat.Valid() && Tracking()
    {
      hide IndexWired, MasksWired, Tracks, Masked, Tally.Counted, Weighed, Balanced, UnsatSet.Valid;
    }
  }

  /** The buffers have the sizes of the formula and are distinct. */
  ghost predicate BuffersFit(n: nat, m: nat, vals: array<bool>, best: array<bool>, tmp: array<bool>, satcnt: array<int>,
                             crit: array<int>, weightedbreak: array<int>, weights: array<int>) {
    && vals.Length == best.Length == tmp.Length == n
    && satcnt.Length == crit.Length == m && weightedbreak.Length == 2 * n && weights.Length == MAX_LEN + 1
    && vals != best && vals != tmp && best != tmp
    && satcnt != crit && satcnt != weightedbreak && satcnt != weights && crit != weightedbreak && crit != weights
    && weightedbreak != weights
  }

  /** The buffers of a formula with n variables and m clauses. */
  method Allocate(n: nat, m: nat) returns (vals: array<bool>, best: array<bool>, tmp: array<bool>, satcnt: array<int>,
                                           crit: array<int>, weightedbreak: array<int>, weights: array<int>)
    ensures BuffersFit(n, m, vals, best, tmp, satcnt, crit, weightedbreak, weights)
    ensures fresh(vals) && fresh(best) && fresh(tmp) && fresh(satcnt) && fresh(crit) && fresh(weightedbreak) && fresh(weights)
  {
    vals, best, tmp := new bool[n](_ => false), new bool[n](_ => false), new bool[n](_ => false);
    satcnt, crit := new int[m](_ => 0), new int[m](_ => 0);
    weightedbreak, weights := new int[2 * n](_ => 0), new int[MAX_LEN + 1](_ => 0);
  }

  /** What a search is built from. */
  ghost predicate Sources(f: Formula, n: nat, cdb: seq<int>, starts: seq<int>, lits: seq<int>, refs: seq<int>, occs: seq<int>,
                          trail: seq<int>, maskSet: seq<bool>, maskClear: seq<bool>, prepped: bool) {
    && Occurrences.Stack(f, n, cdb, starts) && lits == starts[..|starts| - 1] && |f| < 0x200_0000
    && Indexed(f, n, refs, occs) && (forall c :: 0 <= c < |f| ==> |f[c]| > 0)
    && MasksOf(trail, n, maskSet, maskClear) && (prepped ==> UnitsApart(f, trail) && Consistent(trail))
  }

  lemma SourceSizes(f: Formula, n: nat, cdb: seq<int>, starts: seq<int>, lits: seq<int>, refs: seq<int>, occs: seq<int>,
                    trail: seq<int>, maskSet: seq<bool>, maskClear: seq<bool>, prepped: bool)
    requires Sources(f, n, cdb, starts, lits, refs, occs, trail, maskSet, maskClear, prepped)
    ensures |lits| == |f| < 0x200_0000 && |maskSet| == |maskClear| == n
  {
    StackSize(f, n, cdb, starts);
  }

  lemma AllNormalisedOf(f: Formula, v: seq<bool>, w: seq<bool>, done: set<int>, sat: seq<int>, crit: seq<int>)
    requires Midway(f, v, w, done, sat, crit)
    ensures AllNormalised(f, |v|)
  {}

  /** A normalised clause holds a literal or its negation, not both. */
  lemma OneSided(f: Formula, n: int, c: nat, lit: int)
    requires AllNormalised(f, n) && c < |f| && lit in f[c]
    ensures -lit !in f[c]
  {
    assert Normalised(f[c], n);
  }

  /** The clauses of the first k cells of a list. */
  ghost predicate Visited(list: seq<int>, k: nat, done: set<int>) {
    && k <= |list|
    && (forall j :: 0 <= j < k ==> ClauseOf(list[j]) in done)
    && (forall c :: c in done ==> exists j :: 0 <= j < k && ClauseOf(list[j]) == c)
  }

  lemma VisitedNone(list: seq<int>)
    ensures Visited(list, 0, {})
  {}

  lemma VisitNext(f: Formula, lit: int, k: nat, done: set<int>)
    requires k < |Occs(f, lit)| && Visited(Occs(f, lit), k, done)
    ensures ClauseOf(Occs(f, lit)[k]) !in done
    ensures Visited(Occs(f, lit), k + 1, done + {ClauseOf(Occs(f, lit)[k])})
  {
    OccListExact(f, lit, |f|);
  }

  lemma VisitedAll(f: Formula, lit: int, done: set<int>)
    requires Visited(Occs(f, lit), |Occs(f, lit)|, done)
    ensures forall c :: c in done <==> 0 <= c < |f| && lit in f[c]
  {
    OccListExact(f, lit, |f|);
    var list := Occs(f, lit);
    forall c | c in done ensures 0 <= c < |f| && lit in f[c] {
      var j :| 0 <= j < |list| && ClauseOf(list[j]) == c;
      assert IsOccurrence(f, lit, |f|, list[j]);
    }
    forall c | 0 <= c < |f| && lit in f[c] ensures c in done {
      Unpack(c, |f[c]|);
      assert Pack(c, |f[c]|) in list;
    }
  }

  /** One bit to force a variable true and one to force it false. */
  ghost predicate MasksOf(trail: seq<int>, n: nat, maskSet: seq<bool>, maskClear: seq<bool>) {
    && |maskSet| == |maskClear| == n
    && (forall l :: l in trail ==> IsLit(l, n))
    && (forall i :: 0 <= i < n ==> (maskSet[i] <==> i in trail))
    && (forall i :: 0 <= i < n ==> (maskClear[i] <==> -i !in trail))
  }

  ghost predicate Consistent(trail: seq<int>) {
    forall l :: l in trail ==> -l !in trail
  }

  /** Applying the masks to any assignment makes the trail true. */
  lemma MasksForce(trail: seq<int>, n: nat, maskSet: seq<bool>, maskClear: seq<bool>, v: seq<bool>)
    requires MasksOf(trail, n, maskSet, maskClear) && Consistent(trail) && |v| == n
    requires forall i :: 0 <= i < n ==> (v[i] ==> maskClear[i] || maskSet[i]) && (maskSet[i] ==> v[i])
    ensures Masked(trail, v)
  {
    forall l | l in trail ensures IsLit(l, n) && True(v, l) {
      var x: int := Abs(l);
      assert (maskSet[x] <==> x in trail) && (maskClear[x] <==> -x !in trail);
    }
  }

  /** Flipping a literal of a clause leaves the trail true. */
  lemma MaskedFlip(f: Formula, trail: seq<int>, v: seq<bool>, c: nat, lit: int)
    requires UnitsApart(f, trail) && Masked(trail, v) && c < |f| && lit in f[c] && IsLit(lit, |v|)
    ensures Masked(trail, Flipped(v, Abs(lit)))
  {
    forall l | l in trail ensures True(Flipped(v, Abs(lit)), l) {
      assert l != lit && l != -lit;
    }
  }

  /** When propagation ran, no clause mentions a variable of the trail. */
  ghost predicate UnitsApart(f: Formula, trail: seq<int>) {
    forall c, l :: 0 <= c < |f| && l in f[c] ==> l !in trail && -l !in trail
  }

  /** The assignment makes every literal of the trail true. */
  ghost predicate Masked(trail: seq<int>, v: seq<bool>) {
    forall l :: l in trail ==> IsLit(l, |v|) && True(v, l)
  }

  /** `best` is an assignment that was visited, with the fewest falsified
      clauses of all of them; all satisfy the trail when propagation ran. */
  ghost predicate Tracks(f: Formula, n: nat, trail: seq<int>, prepped: bool, visited: seq<seq<bool>>, best: seq<bool>, bestMin: int) {
    && AllNormalised(f, n) && |best| == n
    && (forall i :: 0 <= i < |visited| ==> |visited[i]| == n && bestMin <= |Falsified(f, visited[i])|)
    && (if visited == [] then bestMin == INT_MAX else best in visited && bestMin == |Falsified(f, best)|)
    && (prepped ==> forall i :: 0 <= i < |visited| ==> Masked(trail, visited[i]))
  }

  lemma TracksNext(f: Formula, n: nat, trail: seq<int>, prepped: bool, visited: seq<seq<bool>>, best: seq<bool>, bestMin: int, v: seq<bool>)
    requires Tracks(f, n, trail, prepped, visited, best, bestMin) && |v| == n && |Falsified(f, v)| < INT_MAX
    requires prepped ==> Masked(trail, v)
    ensures |Falsified(f, v)| < bestMin ==> Tracks(f, n, trail, prepped, visited + [v], v, |Falsified(f, v)|)
    ensures |Falsified(f, v)| >= bestMin ==> Tracks(f, n, trail, prepped, visited + [v], best, bestMin)
  {
    hide Masked, Falsified;
    assert (visited + [v])[|visited|] == v;
  }

  lemma StartFlip(f: Formula, v: seq<bool>, w: seq<bool>, sat: seq<int>, crit: seq<int>)
    requires Counted(f, v, sat, crit) && |w| == |v|
    ensures Midway(f, v, w, {}, sat, crit)
  {}

  /** Weight of a clause of the given length: uniform, by length, or by shortness. */
  function LenToWeight(s: Strategy, len: int): (w: int)
    requires 1 <= s.weight <= 7 && len >= 1
    ensures 1 <= w <= 7 && WeightOf(s, len, w)
  {
    if s.uni > 0 then s.weight
    else if s.uni < 0 then (if len < s.weight then len else s.weight)
    else if s.weight - len > 1 then s.weight - len else 1
  }

  ghost function ClauseWeights(f: Formula, weights: seq<int>): (w: seq<int>)
    requires |weights| == MAX_LEN + 1
    ensures |w| == |f| && forall c :: 0 <= c < |f| ==> w[c] == weights[Capped(|f[c]|)]
  {
    seq(|f|, c requires 0 <= c < |f| => weights[Capped(|f[c]|)])
  }

  ghost predicate Light(w: seq<int>) {
    forall c :: 0 <= c < |w| ==> 1 <= w[c] <= 7
  }

  /** Counters, critical literals and break weights of the first i clauses. */
  ghost predicate CountedTo(f: Formula, n: nat, v: seq<bool>, sat: seq<int>, crit: seq<int>, w: seq<int>, wb: seq<int>, i: nat) {
    && AllNormalised(f, n) && |v| == n && |sat| == |crit| == |w| == |f| && |wb| == 2 * n && i <= |f| && Light(w)
    && (forall c :: 0 <= c < i ==> CountedAt(f[c], v, sat[c], crit[c]))
    && (forall l :: IsLit(l, n) ==> wb[Ref(l)] == Held(sat, crit, w, l, i))
  }

  lemma CountNext(f: Formula, n: nat, v: seq<bool>, sat: seq<int>, crit: seq<int>, w: seq<int>, wb: seq<int>, i: nat,
                  s: int, x: int, wb': seq<int>)
    requires CountedTo(f, n, v, sat, crit, w, wb, i) && i < |f| && CountedAt(f[i], v, s, x)
    requires if s == 1 then IsLit(x, n) && wb' == wb[Ref(x) := wb[Ref(x)] + w[i]] else wb' == wb
    ensures CountedTo(f, n, v, sat[i := s], crit[i := x], w, wb', i + 1)
  {
    hide CountedAt, AllNormalised, Light;
    forall l | IsLit(l, n) ensures wb'[Ref(l)] == Held(sat[i := s], crit[i := x], w, l, i + 1) {
      HeldUpdate(sat, crit, w, l, i, i, s, x);
    }
  }

  lemma CritIsLit(c: Clause, v: seq<bool>, sat: int, x: int)
    requires CountedAt(c, v, sat, x) && sat == 1
    ensures IsLit(x, |v|)
  {
    OneTrue(c, v);
  }

  lemma TallyNothing(c: Clause, v: seq<bool>)
    requires Normalised(c, |v|)
    ensures LitsOver(c, |v|) && NumTrue(c[..0], v) == 0 && CritTrue(c[..0], v) == 0
  {}

  lemma TakeNext(c: Clause, k: nat)
    requires k < |c|
    ensures c[..k + 1] == c[..k] + [c[k]]
  {}

  /** Least cost so far and the candidates it leaves. */
  ghost predicate Chosen(c: Clause, costs: seq<int>, cands: seq<int>, bestWeight: int, eager: bool)
    requires |c| == |costs|
  {
    && (forall l :: l in cands ==> l in c)
    && (c == [] ==> cands == [] && bestWeight == UINT_MAX)
    && (c != [] ==> cands != [] && bestWeight < UINT_MAX)
    && (forall j :: 0 <= j < |c| ==> bestWeight <= costs[j])
    && (eager ==> forall l :: l in cands ==> exists j :: 0 <= j < |c| && c[j] == l && costs[j] == bestWeight)
  }

  /** Considers one more literal of cost w. */
  function Consider(l: int, w: int, cands: seq<int>, bestWeight: int, eager: bool): (seq<int>, int) {
    if !eager then (cands + [l], if w < bestWeight then w else bestWeight)
    else if w < bestWeight then ([l], w)
    else if w == bestWeight then (cands + [l], bestWeight)
    else (cands, bestWeight)
  }

  lemma ConsiderOne(l: int, w: int, cands: seq<int>, bestWeight: int, eager: bool, c: Clause, costs: seq<int>)
    requires |c| == |costs| && Chosen(c, costs, cands, bestWeight, eager) && w < UINT_MAX
    ensures var (cands', bestWeight') := Consider(l, w, cands, bestWeight, eager);
            Chosen(c + [l], costs + [w], cands', bestWeight', eager)
  {
    var (cands', bestWeight') := Consider(l, w, cands, bestWeight, eager);
    var d, x := c + [l], costs + [w];
    assert d[|c|] == l && x[|c|] == w;
    if eager {
      forall y | y in cands' ensures exists j :: 0 <= j < |d| && d[j] == y && x[j] == bestWeight' {
        if y in cands && bestWeight' == bestWeight {
          var j :| 0 <= j < |c| && c[j] == y && costs[j] == bestWeight;
          assert d[j] == y && x[j] == bestWeight';
        }
      }
    }
  }

  lemma BrokenNone(f: Formula, v: seq<bool>, w: seq<int>, lit: int)
    requires AllNormalised(f, |v|) && |w| == |f| && IsLit(lit, |v|)
    ensures BrokenWeight(f, v, w, lit, 0) == 0
  {}

  /** Between neighbouring cells of its list, a literal occurs in no clause. */
  lemma ListGap(f: Formula, lit: int, k: nat)
    requires k <= |Occs(f, lit)|
    ensures var list := Occs(f, lit);
            var from := if k == 0 then 0 else ClauseOf(list[k - 1]) + 1;
            var to := if k == |list| then |f| else ClauseOf(list[k]);
            0 <= from <= to <= |f| && forall c :: from <= c < to ==> lit !in f[c]
  {
    var list := Occs(f, lit);
    OccListExact(f, lit, |f|);
    var from := if k == 0 then 0 else ClauseOf(list[k - 1]) + 1;
    var to := if k == |list| then |f| else ClauseOf(list[k]);
    if k > 0 { assert IsOccurrence(f, lit, |f|, list[k - 1]); }
    if k < |list| { assert IsOccurrence(f, lit, |f|, list[k]); }
    forall c | from <= c < to ensures lit !in f[c] {
      if lit in f[c] {
        var j :| 0 <= j < |list| && list[j] == Pack(c, |f[c]|);
        Unpack(c, |f[c]|);
        assert false;
      }
    }
  }

  lemma NotOurs(s: LocalSearch, u: UnsatSet)
    ensures s !in u.Footprint()
  {}

  lemma NotInner(r: Luby.Restarts, u: UnsatSet)
    ensures r !in u.Footprint()
  {}

  lemma CappedFits(len: nat)
    ensures Capped(len) <= MAX_LEN
  {}

  lemma RefFits(lit: int, n: nat)
    requires IsLit(lit, n)
    ensures Ref(lit) < 2 * n
  {}

  lemma XorZero(x: int)
    ensures Xor(0, x) == x && Xor(x, 0) == x
  {}
}
