/** What the local search does, step by step: when it flips, when it restarts,
    which assignment it keeps as its best, and when it ends. */
module History {
  import opened Cnf
  import opened Occurrences
  import opened Tally
  import opened Luby

  const INT_MAX := 0x7fff_ffff

  /** The clauses of a formula that v falsifies. */
  ghost function Falsified(f: Formula, v: seq<bool>): set<int>
    requires AllNormalised(f, |v|)
  {
    set c | 0 <= c < |f| && NumTrue(f[c], v) == 0
  }

  /** One literal of a clause that was falsified has been flipped. */
  ghost predicate FlipsFalsified(f: Formula, before: seq<bool>, after: seq<bool>, c: nat, lit: int) {
    && c < |f| && Normalised(f[c], |before|) && lit in f[c] && IsLit(lit, |before|)
    && NumTrue(f[c], before) == 0 && after == Flipped(before, Abs(lit))
  }

  /** The limits a run obeys: falsified clauses aimed at, flips and hits of the
      minimum, the last two off when negative. */
  datatype Limits = Limits(target: nat, flips: int, hits: int)

  /** How literals are picked and clauses weighed until the next restart. */
  datatype Strategy = Strategy(eager: bool, walk: bool, cached: bool, pol: int, uni: int, weight: int)

  /** Options of restarts: base interval, whether by reluctant doubling, whether there are outer
      ones and their factor; whether all clauses have one length, and how many inner restarts there
      are then; the default strategy; and whether restarts take the best or the current assignment. */
  datatype Options = Options(restart: int, reluctant: bool, outer: bool, factor: int, uniform: bool, unirestarts: int,
                             strategy: Strategy, best: bool, keep: bool)

  predicate ValidOptions(o: Options) {
    0 <= o.restart <= INT_MAX && 1 <= o.factor <= INT_MAX && 1 <= o.strategy.weight <= 7
  }

  /** Where the search stands: assignment and clause weights; all assignments visited; the best of them
      and that since the last restart; its hits; and the limits of the next restarts. */
  datatype Snap = Snap(
    v: seq<bool>, w: seq<int>, strat: Strategy, flips: nat, visited: seq<seq<bool>>,
    best: seq<bool>, bestMin: int, hits: int, tmp: seq<bool>, tmpMin: int, last: int,
    count: nat, calls: nat, lim: int, outerLim: int, outerInterval: int)

  // ----- the parts of a step ----------------------------------------------------------

  /** The assignment b.v is counted, and kept where it is better than what was kept in a. */
  ghost predicate Saves(f: Formula, a: Snap, b: Snap) {
    && AllNormalised(f, |b.v|)
    && var k := |Falsified(f, b.v)|;
    && b.visited == a.visited + [b.v]
    && (if k < a.tmpMin then b.tmpMin == k && b.tmp == b.v else b.tmpMin == a.tmpMin && b.tmp == a.tmp)
    && (if k < a.bestMin then b.bestMin == k && b.best == b.v && b.hits == 1
        else b.bestMin == a.bestMin && b.best == a.best && b.hits == if k == a.bestMin then a.hits + 1 else a.hits)
  }

  /** Nothing else changes in saving. */
  ghost predicate OnlySaves(a: Snap, b: Snap) {
    b == a.(visited := b.visited, best := b.best, bestMin := b.bestMin, hits := b.hits, tmp := b.tmp, tmpMin := b.tmpMin)
  }

  /** All but what saving changes, and the assignment and its flips, is as before. */
  ghost predicate SameLimits(a: Snap, b: Snap) {
    b.count == a.count && b.calls == a.calls && b.lim == a.lim && b.outerLim == a.outerLim && b.outerInterval == a.outerInterval
  }

  /** The weight of a clause of the given length: the same for all, growing or falling with the length. */
  ghost predicate WeightOf(s: Strategy, len: int, w: int) {
    if s.uni > 0 then w == s.weight
    else if s.uni < 0 then w <= len && w <= s.weight && (w == len || w == s.weight)
    else if s.weight - len >= 1 then w + len == s.weight else w == 1
  }

  ghost predicate WeightsAre(f: Formula, s: Strategy, w: seq<int>) {
    |w| == |f| && forall c :: 0 <= c < |f| ==> WeightOf(s, Capped(|f[c]|), w[c])
  }

  /** lit has a least break weight in its clause. */
  ghost predicate LeastBreak(f: Formula, v: seq<bool>, w: seq<int>, c: nat, lit: int) {
    && AllNormalised(f, |v|) && |w| == |f| && c < |f| && IsLit(lit, |v|)
    && forall l :: l in f[c] && IsLit(l, |v|) ==> BrokenWeight(f, v, w, lit, |f|) <= BrokenWeight(f, v, w, l, |f|)
  }

  /** Flipping any literal of the clause falsifies some clause. */
  ghost predicate AllBreak(f: Formula, v: seq<bool>, w: seq<int>, c: nat) {
    && AllNormalised(f, |v|) && |w| == |f| && c < |f|
    && forall l :: l in f[c] && IsLit(l, |v|) ==> BrokenWeight(f, v, w, l, |f|) > 0
  }

  /** The pick keeps to the strategy: eager picks are least, unless a random walk goes where nothing is free. */
  ghost predicate Picked(f: Formula, a: Snap, c: nat, lit: int) {
    a.strat.eager ==> LeastBreak(f, a.v, a.w, c, lit) || (a.strat.walk && AllBreak(f, a.v, a.w, c))
  }

  /** Clears and sets the bits of the units. */
  function Forced(set_: seq<bool>, clear: seq<bool>, v: seq<bool>): (r: seq<bool>)
    requires |set_| == |clear| == |v|
    ensures |r| == |v|
  {
    seq(|v|, i requires 0 <= i < |v| => (v[i] && clear[i]) || set_[i])
  }

  /** All true for a positive polarity, all false for a negative one. */
  function Polar(pol: int, n: nat): (r: seq<bool>)
    ensures |r| == n && forall i :: 0 <= i < n ==> r[i] == (pol > 0)
  {
    seq(n, _ => pol > 0)
  }

  // ----- the steps ------------------------------------------------------------------------

  /** Where a new assignment is taken from: restarts take the best or the current one if asked to; otherwise,
      unless the cache is used, the polarity decides, and without one it may be any. Units always hold. */
  ghost predicate Taken(o: Options, initial: bool, set_: seq<bool>, clear: seq<bool>, a: Snap, s: Strategy, v: seq<bool>) {
    && |set_| == |clear| == |a.v| == |a.best| == |v| && v == Forced(set_, clear, v)
    && if !initial && o.best then v == Forced(set_, clear, a.best)
       else if !initial && o.keep then v == Forced(set_, clear, a.v)
       else s.pol != 0 && (initial || !s.cached) ==> v == Forced(set_, clear, Polar(s.pol, |v|))
  }

  /** The strategy of a restart: the default one, which is the first, or a random one, where the cache
      goes with the default polarity. */
  ghost predicate Offered(o: Options, count: nat, s: Strategy) {
    && 1 <= s.weight <= 7 && (count == 1 ==> s == o.strategy)
    && (s.cached ==> s.pol == o.strategy.pol)
  }

  ghost predicate FlipsOnce(f: Formula, a: Snap, b: Snap) {
    && (exists c, lit :: FlipsFalsified(f, a.v, b.v, c, lit) && Picked(f, a, c, lit))
    && b.flips == a.flips + 1 && b.w == a.w && b.strat == a.strat && b.last == a.last && SameLimits(a, b) && Saves(f, a, b)
  }

  /** The base interval of restarts, in flips. */
  function Interval(o: Options, n: nat): int {
    if o.restart < n / 2 then n / 2 else o.restart
  }

  function InnerBase(o: Options, n: nat): int {
    if o.restart > 0 then Interval(o, n) else o.restart
  }

  /** A strategy as it is when all clauses have one length. */
  function Fixed(o: Options, s: Strategy): Strategy {
    if o.uniform then s.(pol := 0, uni := 1, weight := 1) else s
  }

  /** An inner restart: nothing but the limit changes when the best has improved since the
      last one; otherwise a new assignment under some strategy. */
  ghost predicate RestartsInner(f: Formula, o: Options, set_: seq<bool>, clear: seq<bool>, a: Snap, b: Snap) {
    && b.flips == a.flips && b.count == a.count + 1 && b.calls == a.calls + 1 && b.last == b.bestMin
    && b.lim == LimitAfter(InnerBase(o, |a.v|), o.reluctant, a.calls, a.flips)
    && b.outerLim == a.outerLim && b.outerInterval == a.outerInterval
    && if a.bestMin < a.last then b == a.(count := b.count, calls := b.calls, last := b.last, lim := b.lim)
       else Restarted(f, o, set_, clear, a.(count := b.count, calls := b.calls, lim := b.lim), b.(last := a.last))
  }

  /** A new assignment and a new strategy, which is the default one at the first restart. */
  ghost predicate Restarted(f: Formula, o: Options, set_: seq<bool>, clear: seq<bool>, a: Snap, b: Snap) {
    && b.flips == a.flips && b.last == a.last && SameLimits(a, b)
    && (exists s :: Offered(o, b.count, s) && b.strat == Fixed(o, s))
    && Taken(o, false, set_, clear, a, b.strat, b.v) && WeightsAre(f, b.strat, b.w) && Saves(f, a.(tmpMin := INT_MAX), b)
  }

  /** The start of a round: a new assignment under the default strategy. */
  ghost predicate Begins(f: Formula, o: Options, set_: seq<bool>, clear: seq<bool>, a: Snap, b: Snap) {
    && Taken(o, true, set_, clear, a, b.strat, b.v) && b.flips == a.flips && b.count == a.count && b.strat == Fixed(o, o.strategy)
    && b.outerLim == a.outerLim && b.outerInterval == a.outerInterval
    && |b.v| == |a.v| && WeightsAre(f, b.strat, b.w) && Saves(f, a.(tmpMin := INT_MAX), b)
    && b.last == |Falsified(f, b.v)| && b.calls == 0 && b.lim == b.flips
  }

  /** A search before its first round. */
  ghost predicate Unstarted(n: nat, a: Snap) {
    && |a.v| == |a.best| == |a.tmp| == n && a.flips == 0 && a.visited == [] && a.bestMin == a.tmpMin == a.last == INT_MAX
    && a.hits == 0 && a.count == 0
  }

  /** The first limit of outer restarts: never, or a multiple of the base interval from now. */
  function OuterFirst(o: Options, a: Snap): Snap {
    if o.outer then a.(outerInterval := Interval(o, |a.v|) * o.factor, outerLim := a.flips + Interval(o, |a.v|) * o.factor)
    else a.(outerLim := INT64_MAX)
  }

  /** An outer restart: the next limit is an interval away, which doubles. */
  function OuterNext(a: Snap): Snap {
    a.(outerInterval := Saturated(a.outerInterval, a.outerInterval), outerLim := Saturated(a.flips, a.outerInterval))
  }

  // ----- when the search goes on ------------------------------------------------------------

  ghost predicate Reached(f: Formula, limits: Limits, a: Snap) {
    AllNormalised(f, |a.v|) && |Falsified(f, a.v)| <= limits.target
  }

  /** A limit on flips or hits is reached. */
  predicate Over(limits: Limits, a: Snap) {
    (limits.flips >= 0 && limits.flips <= a.flips) || (limits.hits >= 0 && a.hits >= limits.hits)
  }

  predicate OuterDue(a: Snap) { a.flips >= a.outerLim }

  predicate InnerDue(o: Options, a: Snap) {
    !(o.uniform && a.count >= o.unirestarts) && a.flips >= a.lim
  }

  ghost predicate GoesOn(f: Formula, limits: Limits, a: Snap) {
    !Reached(f, limits, a) && !Over(limits, a) && !OuterDue(a)
  }

  /** One iteration of the inner loop. */
  ghost predicate Moves(f: Formula, o: Options, limits: Limits, set_: seq<bool>, clear: seq<bool>, a: Snap, b: Snap) {
    GoesOn(f, limits, a) && if InnerDue(o, a) then RestartsInner(f, o, set_, clear, a, b) else FlipsOnce(f, a, b)
  }

  /** The states that one inner loop goes through. */
  ghost predicate Path(f: Formula, o: Options, limits: Limits, set_: seq<bool>, clear: seq<bool>, path: seq<Snap>) {
    path != [] && forall i :: 0 <= i < |path| - 1 ==> Moves(f, o, limits, set_, clear, path[i], path[i + 1])
  }

  function Last(path: seq<Snap>): Snap
    requires path != []
  {
    path[|path| - 1]
  }

  /** The rounds of the outer loop, each begun after an outer restart. */
  ghost predicate Rounds(f: Formula, o: Options, limits: Limits, set_: seq<bool>, clear: seq<bool>, start: Snap, rounds: seq<seq<Snap>>) {
    && (forall i :: 0 <= i < |rounds| ==> Path(f, o, limits, set_, clear, rounds[i]))
    && (|rounds| > 0 ==> rounds[0] != [] && Begins(f, o, set_, clear, start, rounds[0][0]))
    && (forall i :: 0 < i < |rounds| ==> Follows(f, o, limits, set_, clear, rounds[i - 1], rounds[i]))
  }

  /** One round ended because its outer restart was due, and the next began. */
  ghost predicate Follows(f: Formula, o: Options, limits: Limits, set_: seq<bool>, clear: seq<bool>, a: seq<Snap>, b: seq<Snap>) {
    && a != [] && b != [] && !Reached(f, limits, Last(a)) && !Over(limits, Last(a)) && OuterDue(Last(a))
    && Begins(f, o, set_, clear, OuterNext(Last(a)), b[0])
  }

  /** How many iterations all rounds took, outer restarts included. */
  function Steps(rounds: seq<seq<Snap>>): int {
    if rounds == [] then -1 else Steps(rounds[..|rounds| - 1]) + |rounds[|rounds| - 1]|
  }

  /** A whole search: rounds that ended where a target or limit was reached, or all allowed iterations were used. */
  ghost predicate Whole(f: Formula, o: Options, limits: Limits, set_: seq<bool>, clear: seq<bool>, start: Snap,
                        rounds: seq<seq<Snap>>, budget: nat)
  {
    && rounds != [] && Rounds(f, o, limits, set_, clear, start, rounds) && Steps(rounds) <= budget
    && var end := Last(rounds[|rounds| - 1]);
    && (Reached(f, limits, end) || Over(limits, end) || Steps(rounds) == budget)
  }

  /** Only what is kept matters for what saving does to it. */
  lemma SavesSame(f: Formula, a: Snap, c: Snap, b: Snap)
    requires Saves(f, a, b) && c.visited == a.visited && c.tmpMin == a.tmpMin && c.tmp == a.tmp
    requires c.bestMin == a.bestMin && c.best == a.best && c.hits == a.hits
    ensures Saves(f, c, b)
  {
    hide Falsified;
  }

  lemma FlippedOnce(f: Formula, was: Snap, mid: Snap, now: Snap, c: nat, lit: int)
    requires FlipsFalsified(f, was.v, mid.v, c, lit) && Picked(f, was, c, lit) && mid == was.(v := mid.v, flips := was.flips + 1)
    requires Saves(f, mid, now) && OnlySaves(mid, now)
    ensures FlipsOnce(f, was, now)
  {
    hide FlipsFalsified, Picked;
    assert now.v == mid.v;
  }

  lemma RestartedInner(f: Formula, o: Options, set_: seq<bool>, clear: seq<bool>, was: Snap, a: Snap, b: Snap)
    requires a == was.(count := was.count + 1, calls := was.calls + 1,
                       lim := LimitAfter(InnerBase(o, |was.v|), o.reluctant, was.calls, was.flips))
    requires was.bestMin >= was.last && Restarted(f, o, set_, clear, a, b)
    ensures RestartsInner(f, o, set_, clear, was, b.(last := b.bestMin))
  {
    hide Taken, WeightsAre, Saves, LimitAfter;
    assert b.(last := b.bestMin).(last := was.last) == b;
  }

  lemma KeptInner(f: Formula, o: Options, set_: seq<bool>, clear: seq<bool>, was: Snap, a: Snap)
    requires a == was.(count := was.count + 1, calls := was.calls + 1,
                       lim := LimitAfter(InnerBase(o, |was.v|), o.reluctant, was.calls, was.flips))
    requires was.bestMin < was.last
    ensures RestartsInner(f, o, set_, clear, was, a.(last := a.bestMin))
  {}

  /** A step adds at most one flip, and outer restarts stay as they are. */
  lemma MoveKeeps(f: Formula, o: Options, limits: Limits, set_: seq<bool>, clear: seq<bool>, a: Snap, b: Snap)
    requires Moves(f, o, limits, set_, clear, a, b)
    ensures a.flips <= b.flips <= a.flips + 1 && b.outerInterval == a.outerInterval
  {
    hide Saves, Taken, WeightsAre, Reached, LimitAfter, Over;
  }

  lemma OnePath(f: Formula, o: Options, limits: Limits, set_: seq<bool>, clear: seq<bool>, a: Snap)
    ensures Path(f, o, limits, set_, clear, [a])
  {}

  lemma PathMore(f: Formula, o: Options, limits: Limits, set_: seq<bool>, clear: seq<bool>, path: seq<Snap>, b: Snap)
    requires Path(f, o, limits, set_, clear, path) && Moves(f, o, limits, set_, clear, Last(path), b)
    ensures Path(f, o, limits, set_, clear, path + [b])
  {
    hide Moves;
    var next := path + [b];
    forall i | 0 <= i < |next| - 1 ensures Moves(f, o, limits, set_, clear, next[i], next[i + 1]) {
      if i < |path| - 1 { assert next[i] == path[i] && next[i + 1] == path[i + 1]; }
    }
  }

  /** The search stands between rounds: before the first, or after an outer restart. */
  ghost predicate Between(f: Formula, o: Options, limits: Limits, set_: seq<bool>, clear: seq<bool>, start: Snap,
                          rounds: seq<seq<Snap>>, now: Snap)
  {
    && Rounds(f, o, limits, set_, clear, start, rounds)
    && (if rounds == [] then now == start
        else
          var path := rounds[|rounds| - 1];
          && path != [] && !Reached(f, limits, Last(path)) && !Over(limits, Last(path)) && OuterDue(Last(path))
          && now == OuterNext(Last(path)))
  }

  lemma NoRounds(f: Formula, o: Options, limits: Limits, set_: seq<bool>, clear: seq<bool>, start: Snap)
    ensures Between(f, o, limits, set_, clear, start, [], start) && Steps([]) == -1
  {}

  lemma RoundsMore(f: Formula, o: Options, limits: Limits, set_: seq<bool>, clear: seq<bool>, start: Snap,
                   rounds: seq<seq<Snap>>, now: Snap, path: seq<Snap>)
    requires Between(f, o, limits, set_, clear, start, rounds, now)
    requires Path(f, o, limits, set_, clear, path) && Begins(f, o, set_, clear, now, path[0])
    ensures Rounds(f, o, limits, set_, clear, start, rounds + [path]) && Steps(rounds + [path]) == Steps(rounds) + |path|
    ensures |rounds + [path]| == |rounds| + 1 && (rounds + [path])[|rounds|] == path
  {
    hide Path, Begins, Reached, Over;
    assert path != [] by { IsPath(f, o, limits, set_, clear, path); }
    var next := rounds + [path];
    assert next[..|next| - 1] == rounds;
    forall i | 0 <= i < |next| ensures Path(f, o, limits, set_, clear, next[i]) {
      if i < |rounds| { assert next[i] == rounds[i]; }
    }
    forall i | 0 < i < |next| ensures Follows(f, o, limits, set_, clear, next[i - 1], next[i]) {
      if i < |rounds| { assert Follows(f, o, limits, set_, clear, rounds[i - 1], rounds[i]); }
    }
  }

  lemma BetweenNext(f: Formula, o: Options, limits: Limits, set_: seq<bool>, clear: seq<bool>, start: Snap, rounds: seq<seq<Snap>>)
    requires Rounds(f, o, limits, set_, clear, start, rounds) && rounds != []
    requires var path := rounds[|rounds| - 1];
             path != [] && !Reached(f, limits, Last(path)) && !Over(limits, Last(path)) && OuterDue(Last(path))
    ensures Between(f, o, limits, set_, clear, start, rounds, OuterNext(Last(rounds[|rounds| - 1])))
  {
    hide Rounds;
  }

  lemma WholeNow(f: Formula, o: Options, limits: Limits, set_: seq<bool>, clear: seq<bool>, start: Snap,
                 rounds: seq<seq<Snap>>, budget: nat)
    requires rounds != [] && Rounds(f, o, limits, set_, clear, start, rounds) && Steps(rounds) <= budget
    requires var path := rounds[|rounds| - 1];
             path != [] && (Reached(f, limits, Last(path)) || Over(limits, Last(path)) || Steps(rounds) == budget)
    ensures Whole(f, o, limits, set_, clear, start, rounds, budget)
  {}

  lemma IsPath(f: Formula, o: Options, limits: Limits, set_: seq<bool>, clear: seq<bool>, path: seq<Snap>)
    requires Path(f, o, limits, set_, clear, path)
    ensures path != []
  {}

  lemma IntervalFits(o: Options, n: nat)
    requires ValidOptions(o) && n <= INT_MAX
    ensures 0 <= Interval(o, n) * o.factor <= INT64_MAX
  {
    var a, b := Interval(o, n), o.factor;
    assert 0 <= a <= INT_MAX && 1 <= b <= INT_MAX;
    ProductMonotone(a, INT_MAX, b);
    ProductMonotone(b, INT_MAX, INT_MAX);
  }

  lemma InnerFits(o: Options, n: nat)
    requires ValidOptions(o) && n <= INT_MAX
    ensures InnerBase(o, n) <= INT_MAX
  {}

  lemma ProductMonotone(a: int, b: int, c: int)
    requires 0 <= a <= b && 0 <= c
    ensures 0 <= a * c <= b * c
  {
    assert b * c - a * c == (b - a) * c;
  }

  // ----- what whole searches keep ------------------------------------------------------

  /** The minimum is attained, is the least of all visited, and only reaches zero where the search stands. */
  ghost predicate Sound(f: Formula, a: Snap) {
    && AllNormalised(f, |a.v|) && a.visited != [] && a.visited[|a.visited| - 1] == a.v
    && 0 <= a.bestMin <= |Falsified(f, a.v)| && (a.bestMin == 0 ==> |Falsified(f, a.v)| == 0)
  }

  lemma SavedSound(f: Formula, a: Snap, b: Snap)
    requires Saves(f, a, b) && a.bestMin > 0
    ensures Sound(f, b)
  {
    hide Falsified;
  }

  lemma MoveSound(f: Formula, o: Options, limits: Limits, set_: seq<bool>, clear: seq<bool>, a: Snap, b: Snap)
    requires Sound(f, a) && Moves(f, o, limits, set_, clear, a, b)
    ensures Sound(f, b)
  {
    hide Saves, Falsified, Taken, WeightsAre, Over, FlipsFalsified, Picked, LimitAfter;
    assert a.bestMin > 0;
    if InnerDue(o, a) {
      if a.bestMin >= a.last {
        SavedSound(f, a.(count := b.count, calls := b.calls, lim := b.lim, tmpMin := INT_MAX), b.(last := a.last));
      }
    } else {
      SavedSound(f, a, b);
    }
  }

  lemma {:induction false} PathSound(f: Formula, o: Options, limits: Limits, set_: seq<bool>, clear: seq<bool>, path: seq<Snap>, i: nat)
    requires Path(f, o, limits, set_, clear, path) && Sound(f, path[0]) && i < |path|
    ensures Sound(f, path[i])
  {
    hide Sound, Moves;
    if i > 0 {
      PathSound(f, o, limits, set_, clear, path, i - 1);
      assert path[i - 1 + 1] == path[i];
      MoveSound(f, o, limits, set_, clear, path[i - 1], path[i]);
    }
  }

  lemma {:induction false} RoundSound(f: Formula, o: Options, limits: Limits, set_: seq<bool>, clear: seq<bool>, start: Snap,
                                      rounds: seq<seq<Snap>>, i: nat)
    requires Rounds(f, o, limits, set_, clear, start, rounds) && i < |rounds| && start.bestMin > 0
    ensures rounds[i] != [] && Sound(f, Last(rounds[i]))
  {
    hide Path, Sound;
    var a := start;
    if i > 0 {
      RoundSound(f, o, limits, set_, clear, start, rounds, i - 1);
      var end := Last(rounds[i - 1]);
      assert Follows(f, o, limits, set_, clear, rounds[i - 1], rounds[i]);
      assert end.bestMin > 0 by { StuckPositive(f, limits, end); }
      a := OuterNext(end);
    }
    assert Path(f, o, limits, set_, clear, rounds[i]);
    IsPath(f, o, limits, set_, clear, rounds[i]);
    SavedSound(f, a.(tmpMin := INT_MAX), rounds[i][0]);
    PathSound(f, o, limits, set_, clear, rounds[i], |rounds[i]| - 1);
  }

  lemma StuckPositive(f: Formula, limits: Limits, a: Snap)
    requires Sound(f, a) && !Reached(f, limits, a)
    ensures a.bestMin > 0
  {}

  /** A search stops at the first model it meets: its minimum is zero exactly if it ended at one. */
  lemma SolvedAtEnd(f: Formula, o: Options, limits: Limits, set_: seq<bool>, clear: seq<bool>, start: Snap,
                    rounds: seq<seq<Snap>>, budget: nat)
    requires Whole(f, o, limits, set_, clear, start, rounds, budget) && start.bestMin > 0
    ensures var end := Last(rounds[|rounds| - 1]);
            && AllNormalised(f, |end.v|) && end.visited != [] && (end.bestMin == 0 <==> |Falsified(f, end.v)| == 0)
            && (Reached(f, limits, end) ==> end.bestMin <= limits.target)
  {
    hide Rounds, Falsified;
    RoundSound(f, o, limits, set_, clear, start, rounds, |rounds| - 1);
  }

  /** What a search from scratch tells: 10 exactly if it ended at a model, and 0 only at a limit,
      a target above zero, or the end of its budget. */
  ghost predicate Answers(f: Formula, n: nat, o: Options, limits: Limits, set_: seq<bool>, clear: seq<bool>,
                          rounds: seq<seq<Snap>>, budget: nat, end: Snap, res: int)
  {
    && (exists start :: Unstarted(n, start) && Whole(f, o, limits, set_, clear, OuterFirst(o, start), rounds, budget))
    && end == Last(rounds[|rounds| - 1])
    && (res == 10 <==> Reached(f, limits.(target := 0), end))
    && (res == 0 ==> Over(limits, end) || Steps(rounds) == budget || (limits.target > 0 && Reached(f, limits, end)))
  }

  lemma AnswersNow(f: Formula, n: nat, o: Options, limits: Limits, set_: seq<bool>, clear: seq<bool>, start: Snap,
                   rounds: seq<seq<Snap>>, budget: nat)
    requires Unstarted(n, start) && Whole(f, o, limits, set_, clear, OuterFirst(o, start), rounds, budget)
    ensures var end := Last(rounds[|rounds| - 1]);
            && end.visited != []
            && Answers(f, n, o, limits, set_, clear, rounds, budget, end, if end.bestMin == 0 then 10 else 0)
  {
    hide Rounds, Falsified;
    SolvedAtEnd(f, o, limits, set_, clear, OuterFirst(o, start), rounds, budget);
  }

  lemma {:induction false} FlipsBounded(f: Formula, o: Options, limits: Limits, set_: seq<bool>, clear: seq<bool>, path: seq<Snap>, i: nat)
    requires Path(f, o, limits, set_, clear, path) && i < |path| && limits.flips >= 0 && path[0].flips <= limits.flips
    ensures path[i].flips <= limits.flips
  {
    if i > 0 {
      FlipsBounded(f, o, limits, set_, clear, path, i - 1);
      assert path[i - 1 + 1] == path[i];
      assert Moves(f, o, limits, set_, clear, path[i - 1], path[i]);
      MoveKeeps(f, o, limits, set_, clear, path[i - 1], path[i]);
      hide Moves, Path;
    }
  }

  /** No search goes beyond its limit on flips. */
  lemma {:induction false} FlipLimitKept(f: Formula, o: Options, limits: Limits, set_: seq<bool>, clear: seq<bool>, start: Snap,
                                         rounds: seq<seq<Snap>>, i: nat)
    requires Rounds(f, o, limits, set_, clear, start, rounds) && i < |rounds| && limits.flips >= 0 && start.flips <= limits.flips
    ensures rounds[i] != [] && Last(rounds[i]).flips <= limits.flips
  {
    hide Path, Saves, WeightsAre, Reached, Over;
    if i > 0 {
      FlipLimitKept(f, o, limits, set_, clear, start, rounds, i - 1);
      assert Follows(f, o, limits, set_, clear, rounds[i - 1], rounds[i]);
    }
    assert Path(f, o, limits, set_, clear, rounds[i]);
    IsPath(f, o, limits, set_, clear, rounds[i]);
    FlipsBounded(f, o, limits, set_, clear, rounds[i], |rounds[i]| - 1);
  }
}
