/** The runs of the weighted search, as steps on assignment and weights alone. */
module WeightedRuns {
  import opened Cnf
  import opened Tally
  import opened Weights
  import opened Transfer

  /** Where the search stands: assignment, clause weights, and the falsified
      clauses that still wait for weight in the round under way. */
  datatype Point = Point(v: seq<bool>, w: seq<real>, sinks: seq<nat>)

  datatype Step =
    | Restart(v: seq<bool>)        // any assignment; the weights stay
    | Flip(x: nat)                 // of the variable with the best gain
    | Round(sinks: seq<nat>)       // no candidate gains: all falsified clauses are to receive
    | Gift(source: nat)            // the next of them receives

  /** The formula and the search fit together. */
  ghost predicate Fits(f: Formula, s: Point) {
    && AllNormalised(f, |s.v|) && |s.w| == |f|
    && forall i :: 0 <= i < |s.sinks| ==> Falsified(f, s.v, s.sinks[i])
  }

  ghost predicate Falsified(f: Formula, v: seq<bool>, c: int)
    requires AllNormalised(f, |v|)
  {
    0 <= c < |f| && Sats(f, v)[c] == 0
  }

  ghost predicate HasVariable(c: Clause, x: int) {
    x in c || -x in c
  }

  /** The variable is in a falsified clause. */
  ghost predicate Candidate(f: Formula, v: seq<bool>, x: int)
    requires AllNormalised(f, |v|)
  {
    1 <= x < |v| && exists c :: Falsified(f, v, c) && HasVariable(f[c], x)
  }

  /** What flipping x takes off the weight of the falsified clauses. */
  ghost function GainOf(f: Formula, s: Point, x: nat): real
    requires Fits(f, s) && x < |s.v|
  {
    Weigh(f, s.v, s.w) - Weigh(f, Flipped(s.v, x), s.w)
  }

  /** No candidate gains. */
  ghost predicate Stuck(f: Formula, s: Point)
    requires Fits(f, s)
  {
    forall x :: Candidate(f, s.v, x) ==> GainOf(f, s, x) <= 0.0
  }

  /** No variable at all gains. */
  ghost predicate TrueMinimum(f: Formula, s: Point)
    requires Fits(f, s)
  {
    forall x :: 1 <= x < |s.v| ==> GainOf(f, s, x) <= 0.0
  }

  /** The two clauses share a literal. */
  ghost predicate Neighbours(c: Clause, d: Clause) {
    exists l :: l in c && l in d
  }

  /** Clause d is satisfied and has at least the weight to give. */
  ghost predicate IsSource(f: Formula, v: seq<bool>, w: seq<real>, p: Policy, d: int)
    requires AllNormalised(f, |v|) && |w| == |f|
  {
    0 <= d < |f| && Sats(f, v)[d] > 0 && w[d] >= Least(p)
  }

  /** Clause d may give to the sink: as a heaviest satisfied neighbour, or drawn by
      chance, for which it needs at least the base weight. */
  ghost predicate MayGive(f: Formula, v: seq<bool>, w: seq<real>, p: Policy, sink: nat, d: nat)
    requires AllNormalised(f, |v|) && |w| == |f| && sink < |f|
  {
    && d < |f| && Sats(f, v)[d] > 0
    && (w[d] >= BASE_WEIGHT
        || (w[d] >= Least(p) && Neighbours(f[sink], f[d])
            && forall e :: IsSource(f, v, w, p, e) && Neighbours(f[sink], f[e]) ==> w[e] <= w[d]))
  }

  /** The sinks are the falsified clauses, each once. */
  ghost predicate AreSinks(f: Formula, v: seq<bool>, sinks: seq<nat>)
    requires AllNormalised(f, |v|)
  {
    && (forall c: nat :: c in sinks <==> Falsified(f, v, c))
    && (forall i, j :: 0 <= i < j < |sinks| ==> sinks[i] != sinks[j])
  }

  ghost predicate Enabled(f: Formula, p: Policy, s: Point, e: Step)
    requires Fits(f, s)
  {
    match e
    case Restart(v) => s.sinks == [] && |v| == |s.v|
    case Flip(x) =>
      && s.sinks == [] && Candidate(f, s.v, x) && GainOf(f, s, x) > 0.0
      && forall y :: Candidate(f, s.v, y) ==> GainOf(f, s, y) <= GainOf(f, s, x)
    case Round(sinks) => s.sinks == [] && sinks != [] && AreSinks(f, s.v, sinks) && Stuck(f, s)
    case Gift(d) => s.sinks != [] && MayGive(f, s.v, s.w, p, s.sinks[0], d)
  }

  /** The weights after clause d has given to the sink. */
  ghost function Given(p: Policy, w: seq<real>, d: nat, sink: nat): (r: seq<real>)
    requires d < |w| && sink < |w|
    ensures |r| == |w|
  {
    var x := Amount(p, w[d]);
    w[d := w[d] - x][sink := w[sink] + x]
  }

  ghost function Next(f: Formula, p: Policy, s: Point, e: Step): (t: Point)
    requires Fits(f, s) && Enabled(f, p, s, e)
    ensures Fits(f, t) && |t.v| == |s.v|
  {
    match e
    case Restart(v) => s.(v := v)
    case Flip(x) => s.(v := Flipped(s.v, x))
    case Round(sinks) => s.(sinks := sinks)
    case Gift(d) =>
      assert Falsified(f, s.v, s.sinks[0]);
      s.(w := Given(p, s.w, d, s.sinks[0]), sinks := s.sinks[1..])
  }

  ghost predicate Legal(f: Formula, p: Policy, s: Point, steps: seq<Step>)
    decreases |steps|
  {
    && Fits(f, s)
    && (steps == [] || (Enabled(f, p, s, steps[0]) && Legal(f, p, Next(f, p, s, steps[0]), steps[1..])))
  }

  /** How many flips and rounds there are. */
  ghost function Turns(steps: seq<Step>): nat {
    if steps == [] then 0 else (if steps[0].Flip? || steps[0].Round? then 1 else 0) + Turns(steps[1..])
  }

  lemma {:induction false} TurnsJoined(a: seq<Step>, b: seq<Step>)
    ensures Turns(a + b) == Turns(a) + Turns(b)
  {
    if a == [] {
      assert a + b == b;
    } else {
      TurnsJoined(a[1..], b);
      assert (a + b)[1..] == a[1..] + b;
    }
  }

  lemma OneTurn(steps: seq<Step>, e: Step)
    ensures Turns(steps + [e]) == Turns(steps) + if e.Flip? || e.Round? then 1 else 0
  {
    TurnsJoined(steps, [e]);
    assert [e][1..] == [];
  }

  ghost function After(f: Formula, p: Policy, s: Point, steps: seq<Step>): (t: Point)
    requires Legal(f, p, s, steps)
    ensures Fits(f, t) && |t.v| == |s.v|
    decreases |steps|
  {
    if steps == [] then s else After(f, p, Next(f, p, s, steps[0]), steps[1..])
  }

  /** All clauses have the base weight at first. */
  ghost function Start(f: Formula, v: seq<bool>): Point {
    Point(v, seq(|f|, _ => BASE_WEIGHT), [])
  }

  lemma {:induction false} Joined(f: Formula, p: Policy, s: Point, a: seq<Step>, b: seq<Step>)
    requires Legal(f, p, s, a) && Legal(f, p, After(f, p, s, a), b)
    ensures Legal(f, p, s, a + b) && After(f, p, s, a + b) == After(f, p, After(f, p, s, a), b)
    decreases |a|
  {
    hide Enabled, Next, Fits;
    if a == [] {
      assert a + b == b;
    } else {
      Joined(f, p, Next(f, p, s, a[0]), a[1..], b);
      assert (a + b)[1..] == a[1..] + b;
    }
  }

  lemma OneStep(f: Formula, p: Policy, s: Point, e: Step)
    requires Fits(f, s) && Enabled(f, p, s, e)
    ensures Legal(f, p, s, [e]) && After(f, p, s, [e]) == Next(f, p, s, e)
  {
    hide Enabled, Fits;
    var n := Next(f, p, s, e);
    assert Legal(f, p, n, []) && After(f, p, n, []) == n;
    assert [e][1..] == [];
  }

  /** A run goes on by one step. */
  lemma Extended(f: Formula, p: Policy, s: Point, steps: seq<Step>, e: Step)
    requires Legal(f, p, s, steps) && Enabled(f, p, After(f, p, s, steps), e)
    ensures Legal(f, p, s, steps + [e]) && After(f, p, s, steps + [e]) == Next(f, p, After(f, p, s, steps), e)
  {
    OneStep(f, p, After(f, p, s, steps), e);
    hide Enabled, Fits, Legal, After, Next;
    Joined(f, p, s, steps, [e]);
  }

  // ----- when weights never fall below zero ---------------------------------------------

  /** Nobody is asked for more than it has, or nothing ever moves. */
  predicate Safe(p: Policy) {
    Moderate(p) || (p.rule == 2 && p.shares.init == 0.0)
  }

  /** What safe options keep: weights of at least zero, or the weights of the start. */
  ghost predicate Secure(p: Policy, w: seq<real>) {
    if Moderate(p) then Nonnegative(w) else forall c :: 0 <= c < |w| ==> w[c] == BASE_WEIGHT
  }

  lemma GivenSecure(p: Policy, w: seq<real>, d: nat, sink: nat)
    requires Allowed(p) && Safe(p) && Secure(p, w) && d < |w| && sink < |w| && d != sink && w[d] >= Least(p)
    ensures Secure(p, Given(p, w, d, sink))
  {
    if Moderate(p) {
      hide Amount, Moderate;
      AmountNonnegative(p, w[d]);
      ModerateGives(p, w[d]);
      TransferNonnegative(w, d, sink, Amount(p, w[d]));
    }
  }

  lemma NextSecure(f: Formula, p: Policy, s: Point, e: Step)
    requires Fits(f, s) && Enabled(f, p, s, e) && Allowed(p) && Safe(p) && Secure(p, s.w)
    ensures Secure(p, Next(f, p, s, e).w)
  {
    if e.Gift? {
      assert Falsified(f, s.v, s.sinks[0]);
      GivenSecure(p, s.w, e.source, s.sinks[0]);
    }
  }

  lemma {:induction false} RunSecure(f: Formula, p: Policy, s: Point, steps: seq<Step>)
    requires Legal(f, p, s, steps) && Allowed(p) && Safe(p) && Secure(p, s.w)
    ensures Secure(p, After(f, p, s, steps).w)
    decreases |steps|
  {
    hide Secure, Safe, Enabled, Next;
    if steps != [] {
      NextSecure(f, p, s, steps[0]);
      RunSecure(f, p, Next(f, p, s, steps[0]), steps[1..]);
    }
  }

  lemma SecureNonnegative(p: Policy, w: seq<real>)
    requires Secure(p, w)
    ensures Nonnegative(w)
  {}

  /** Over every run from the base weights, safe options keep all weights at least zero. */
  lemma SafeRun(f: Formula, v: seq<bool>, p: Policy, steps: seq<Step>)
    requires Allowed(p) && Safe(p) && Legal(f, p, Start(f, v), steps)
    ensures Nonnegative(After(f, p, Start(f, v), steps).w)
  {
    RunSecure(f, p, Start(f, v), steps);
    SecureNonnegative(p, After(f, p, Start(f, v), steps).w);
  }

  // ----- when a minimum is a true one ------------------------------------------------------

  lemma {:induction false} SumMonotone(t: seq<real>, u: seq<real>)
    requires |t| == |u| && forall c :: 0 <= c < |t| ==> t[c] <= u[c]
    ensures Sum(t) <= Sum(u)
  {
    if t != [] { SumMonotone(t[..|t| - 1], u[..|t| - 1]); }
  }

  /** A clause without the variable is as before when it is flipped. */
  lemma FlipElsewhere(f: Formula, v: seq<bool>, x: nat, c: nat)
    requires AllNormalised(f, |v|) && 1 <= x < |v| && c < |f| && !HasVariable(f[c], x)
    ensures Sats(f, Flipped(v, x))[c] == Sats(f, v)[c]
  {
    assert Normalised(f[c], |v|);
    var y: int := x;
    FlipTally(f[c], v, if v[x] then -y else y);
  }

  /** With no weight below zero only candidates can gain. */
  lemma StuckIsTrue(f: Formula, s: Point)
    requires Fits(f, s) && Stuck(f, s) && Nonnegative(s.w)
    ensures TrueMinimum(f, s)
  {
    forall x | 1 <= x < |s.v| ensures GainOf(f, s, x) <= 0.0 {
      if !Candidate(f, s.v, x) {
        var t, u := FalsifiedTerms(Sats(f, s.v), s.w), FalsifiedTerms(Sats(f, Flipped(s.v, x)), s.w);
        forall c | 0 <= c < |t| ensures t[c] <= u[c] {
          if Falsified(f, s.v, c) { FlipElsewhere(f, s.v, x, c); }
        }
        SumMonotone(t, u);
      }
    }
  }

  /** Every round of the run begins at a true minimum. */
  ghost predicate AtTrueMinima(f: Formula, p: Policy, s: Point, steps: seq<Step>)
    requires Legal(f, p, s, steps)
    decreases |steps|
  {
    steps == [] || ((steps[0].Round? ==> TrueMinimum(f, s)) && AtTrueMinima(f, p, Next(f, p, s, steps[0]), steps[1..]))
  }

  /** While weights are secure under safe options, weight is moved at true minima only. */
  lemma {:induction false} RunAtMinima(f: Formula, p: Policy, s: Point, steps: seq<Step>)
    requires Legal(f, p, s, steps) && Allowed(p) && Safe(p) && Secure(p, s.w)
    ensures AtTrueMinima(f, p, s, steps)
    decreases |steps|
  {
    hide Secure, Safe, TrueMinimum, Stuck;
    if steps != [] {
      SecureNonnegative(p, s.w);
      if steps[0].Round? { StuckIsTrue(f, s); }
      NextSecure(f, p, s, steps[0]);
      RunAtMinima(f, p, Next(f, p, s, steps[0]), steps[1..]);
    }
  }
}
