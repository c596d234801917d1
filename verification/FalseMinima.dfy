/** When the options ask a clause for more than it has, some run of the weighted
    search moves weight where it takes a minimum for one that is none. */
module FalseMinima {
  import opened Cnf
  import opened Tally
  import opened Weights
  import opened Transfer
  import opened WeightedRuns

  // ----- a family of formulas ---------------------------------------------------------

  /** The two variables of player j. */
  function X(j: nat): int { 3 + 2 * j }

  function Z(j: nat): int { 4 + 2 * j }

  /** The variable of the i-th guard. */
  function Y(i: nat): int { if i == 0 then 1 else X(i - 1) }

  /** Each player can be satisfied alone; all share the literal 1. */
  function Players(k: nat): (f: Formula)
    ensures |f| == k
  {
    if k == 0 then [] else Players(k - 1) + [[X(k - 1), 1]]
  }

  /** What flipping 1 or the variable of a player falsifies. */
  function Guards(k: nat): (f: Formula)
    ensures |f| == k + 1
  {
    if k == 0 then [[-1, 2]] else Guards(k - 1) + [[-X(k - 1), Z(k - 1)]]
  }

  function Blocks(k: nat, m: nat): Formula {
    if m == 0 then [] else Blocks(k, m - 1) + Guards(k)
  }

  function Game(k: nat, m: nat): Formula {
    Players(k) + Blocks(k, m)
  }

  /** The assignment that falsifies player t only. */
  function Only(k: nat, t: nat): (v: seq<bool>)
    ensures |v| == 3 + 2 * k
  {
    seq(3 + 2 * k, i => i >= 3 && (i - 3) / 2 != t)
  }

  function Base(n: nat): (w: seq<real>)
    ensures |w| == n && forall c :: 0 <= c < n ==> w[c] == BASE_WEIGHT
  {
    seq(n, _ => BASE_WEIGHT)
  }

  lemma {:induction false} PlayerAt(k: nat, j: nat)
    requires j < k
    ensures Players(k)[j] == [X(j), 1]
  {
    if j < k - 1 { PlayerAt(k - 1, j); }
  }

  lemma {:induction false} GuardAt(k: nat, i: nat)
    requires i <= k
    ensures Guards(k)[i] == if i == 0 then [-1, 2] else [-X(i - 1), Z(i - 1)]
  {
    if i < k { GuardAt(k - 1, i); }
  }

  /** Two different variables, of the right range. */
  ghost predicate Binary(c: Clause, n: int) {
    |c| == 2 && IsLit(c[0], n) && IsLit(c[1], n) && c[0] != c[1] && c[0] != -c[1]
  }

  lemma PlayersBinary(k: nat)
    ensures forall j :: 0 <= j < k ==> Binary(Players(k)[j], 3 + 2 * k)
  {
    forall j | 0 <= j < k ensures Binary(Players(k)[j], 3 + 2 * k) { PlayerAt(k, j); }
  }

  lemma GuardsBinary(k: nat)
    ensures forall i :: 0 <= i <= k ==> Binary(Guards(k)[i], 3 + 2 * k)
  {
    forall i | 0 <= i <= k ensures Binary(Guards(k)[i], 3 + 2 * k) { GuardAt(k, i); }
  }

  lemma {:induction false} BlocksBinary(k: nat, m: nat)
    ensures forall i :: 0 <= i < |Blocks(k, m)| ==> Binary(Blocks(k, m)[i], 3 + 2 * k)
  {
    if m > 0 {
      BlocksBinary(k, m - 1);
      GuardsBinary(k);
    }
  }

  lemma BinaryNormal(f: Formula, n: int)
    requires forall i :: 0 <= i < |f| ==> Binary(f[i], n)
    ensures AllNormalised(f, n)
  {}

  lemma GameNormal(k: nat, m: nat)
    ensures AllNormalised(Players(k), 3 + 2 * k) && AllNormalised(Guards(k), 3 + 2 * k) && AllNormalised(Blocks(k, m), 3 + 2 * k)
    ensures AllNormalised(Game(k, m), 3 + 2 * k)
    ensures forall i :: 0 <= i < |Game(k, m)| ==> |Game(k, m)[i]| == 2
  {
    PlayersBinary(k);
    GuardsBinary(k);
    BlocksBinary(k, m);
    BinaryNormal(Players(k), 3 + 2 * k);
    BinaryNormal(Guards(k), 3 + 2 * k);
    BinaryNormal(Blocks(k, m), 3 + 2 * k);
    BinaryNormal(Game(k, m), 3 + 2 * k);
  }

  // ----- weights of formulas put together ----------------------------------------------

  /** A clause of two literals is falsified exactly if both are false. */
  lemma TwoLiterals(f: Formula, v: seq<bool>, c: nat)
    requires AllNormalised(f, |v|) && c < |f| && |f[c]| == 2 && IsLit(f[c][0], |v|) && IsLit(f[c][1], |v|)
    ensures Sats(f, v)[c] == (if True(v, f[c][0]) then 1 else 0) + if True(v, f[c][1]) then 1 else 0
  {
    var d := f[c];
    assert d[..1][..0] == [];
    assert NumTrue(d[..1], v) == if True(v, d[0]) then 1 else 0;
  }

  lemma {:induction false} SumJoined(a: seq<real>, b: seq<real>)
    ensures Sum(a + b) == Sum(a) + Sum(b)
    decreases |b|
  {
    if b == [] {
      assert a + b == a;
    } else {
      var k := |b| - 1;
      SumJoined(a, b[..k]);
      assert (a + b)[..|a| + k] == a + b[..k];
    }
  }

  lemma WeighJoined(f: Formula, g: Formula, v: seq<bool>, w: seq<real>, u: seq<real>)
    requires AllNormalised(f, |v|) && AllNormalised(g, |v|) && |w| == |f| && |u| == |g|
    ensures AllNormalised(f + g, |v|) && Weigh(f + g, v, w + u) == Weigh(f, v, w) + Weigh(g, v, u)
  {
    hide Normalised, Sum;
    var a, b := FalsifiedTerms(Sats(f, v), w), FalsifiedTerms(Sats(g, v), u);
    assert Sats(f + g, v) == Sats(f, v) + Sats(g, v);
    assert FalsifiedTerms(Sats(f + g, v), w + u) == a + b;
    SumJoined(a, b);
  }

  lemma {:induction false} SumOnly(t: seq<real>, j: nat)
    requires j < |t| && forall c :: 0 <= c < |t| && c != j ==> t[c] == 0.0
    ensures Sum(t) == t[j]
  {
    SumUpdate(t, j, 0.0);
    SumZero(t[j := 0.0]);
  }

  // ----- which clauses are falsified -------------------------------------------------------

  lemma PlayerSat(k: nat, v: seq<bool>, j: nat)
    requires |v| == 3 + 2 * k && j < k
    ensures AllNormalised(Players(k), |v|) && X(j) < |v|
    ensures Sats(Players(k), v)[j] == 0 <==> !v[X(j)] && !v[1]
  {
    GameNormal(k, 0);
    PlayerAt(k, j);
    TwoLiterals(Players(k), v, j);
  }

  /** A guard is falsified when its variable is true and the next one is not. */
  lemma GuardSat(k: nat, v: seq<bool>, i: nat)
    requires |v| == 3 + 2 * k && i <= k
    ensures AllNormalised(Guards(k), |v|)
    ensures Sats(Guards(k), v)[i] == 0 <==> v[Y(i)] && !v[Y(i) + 1]
  {
    GameNormal(k, 0);
    GuardAt(k, i);
    TwoLiterals(Guards(k), v, i);
  }

  /** No guard is falsified. */
  ghost predicate Guarded(k: nat, v: seq<bool>) {
    |v| == 3 + 2 * k && forall i :: 0 <= i <= k ==> (v[Y(i)] ==> v[Y(i) + 1])
  }

  lemma {:induction false} BlocksHold(k: nat, m: nat, v: seq<bool>)
    requires Guarded(k, v)
    ensures AllNormalised(Blocks(k, m), |v|) && forall c :: 0 <= c < |Blocks(k, m)| ==> Sats(Blocks(k, m), v)[c] > 0
  {
    GameNormal(k, m);
    if m > 0 {
      BlocksHold(k, m - 1, v);
      var f, g := Blocks(k, m - 1), Guards(k);
      forall c | 0 <= c < |f + g| ensures Sats(f + g, v)[c] > 0 {
        if c < |f| {
          assert Sats(f + g, v)[c] == Sats(f, v)[c];
        } else {
          assert Sats(f + g, v)[c] == Sats(g, v)[c - |f|];
          GuardSat(k, v, c - |f|);
        }
      }
    }
  }

  lemma BlocksWeighNothing(k: nat, m: nat, v: seq<bool>)
    requires Guarded(k, v)
    ensures AllNormalised(Blocks(k, m), |v|) && Weigh(Blocks(k, m), v, Base(|Blocks(k, m)|)) == 0.0
  {
    BlocksHold(k, m, v);
    SumZero(FalsifiedTerms(Sats(Blocks(k, m), v), Base(|Blocks(k, m)|)));
  }

  /** A falsified guard costs the base weight in each block. */
  lemma {:induction false} BlocksWeigh(k: nat, m: nat, v: seq<bool>, i: nat)
    requires |v| == 3 + 2 * k && i <= k && AllNormalised(Guards(k), |v|) && Sats(Guards(k), v)[i] == 0
    ensures AllNormalised(Blocks(k, m), |v|) && Weigh(Blocks(k, m), v, Base(|Blocks(k, m)|)) >= BASE_WEIGHT * m as real
  {
    GameNormal(k, m);
    if m > 0 {
      var f, g := Blocks(k, m - 1), Guards(k);
      BlocksWeigh(k, m - 1, v, i);
      WeighJoined(f, g, v, Base(|f|), Base(|g|));
      assert Base(|f + g|) == Base(|f|) + Base(|g|);
      SumNonnegative(FalsifiedTerms(Sats(g, v), Base(|g|)));
      assert FalsifiedTerms(Sats(g, v), Base(|g|))[i] == BASE_WEIGHT;
    }
  }

  /** All players but t hold. */
  ghost predicate Others(k: nat, v: seq<bool>, t: nat) {
    |v| == 3 + 2 * k && !v[1] && forall j :: 0 <= j < k && j != t ==> v[X(j)]
  }

  lemma PlayersWeigh(k: nat, v: seq<bool>, w: seq<real>, t: nat)
    requires Others(k, v, t) && t < k == |w|
    ensures AllNormalised(Players(k), |v|) && Weigh(Players(k), v, w) == if v[X(t)] then 0.0 else w[t]
  {
    GameNormal(k, 0);
    var terms := FalsifiedTerms(Sats(Players(k), v), w);
    forall j | 0 <= j < k ensures terms[j] == if j == t && !v[X(t)] then w[t] else 0.0 { PlayerSat(k, v, j); }
    SumOnly(terms, t);
  }

  lemma PlayersHold(k: nat, v: seq<bool>, w: seq<real>)
    requires |v| == 3 + 2 * k && v[1] && |w| == k
    ensures AllNormalised(Players(k), |v|) && Weigh(Players(k), v, w) == 0.0
  {
    GameNormal(k, 0);
    var terms := FalsifiedTerms(Sats(Players(k), v), w);
    forall j | 0 <= j < k ensures terms[j] == 0.0 { PlayerSat(k, v, j); }
    SumZero(terms);
  }

  // ----- where the game stands ---------------------------------------------------------------

  /** Player t is falsified, the players have the weights w, the guards the base weight. */
  ghost function Standing(k: nat, m: nat, t: nat, w: seq<real>): Point
    requires |w| == k
  {
    Point(Only(k, t), w + Base(|Blocks(k, m)|), [])
  }

  lemma OnlyAt(k: nat, t: nat)
    requires t < k
    ensures var v := Only(k, t); Guarded(k, v) && Others(k, v, t) && !v[X(t)] && !v[Z(t)] && !v[1] && !v[2]
  {
    var v := Only(k, t);
    forall j | 0 <= j < k ensures v[X(j)] == (j != t) && v[Z(j)] == (j != t) {}
  }

  lemma StandingFits(k: nat, m: nat, t: nat, w: seq<real>)
    requires |w| == k
    ensures Fits(Game(k, m), Standing(k, m, t, w))
  {
    GameNormal(k, m);
  }

  lemma WeighGame(k: nat, m: nat, v: seq<bool>, w: seq<real>)
    requires |v| == 3 + 2 * k && |w| == k
    ensures AllNormalised(Game(k, m), |v|) && AllNormalised(Players(k), |v|) && AllNormalised(Blocks(k, m), |v|)
    ensures Weigh(Game(k, m), v, w + Base(|Blocks(k, m)|))
         == Weigh(Players(k), v, w) + Weigh(Blocks(k, m), v, Base(|Blocks(k, m)|))
  {
    GameNormal(k, m);
    WeighJoined(Players(k), Blocks(k, m), v, w, Base(|Blocks(k, m)|));
  }

  /** Only player t is falsified. */
  lemma FalsifiedOnly(k: nat, m: nat, t: nat, c: int)
    requires t < k
    ensures AllNormalised(Game(k, m), |Only(k, t)|) && (Falsified(Game(k, m), Only(k, t), c) <==> c == t)
  {
    GameNormal(k, m);
    var v, f := Only(k, t), Game(k, m);
    OnlyAt(k, t);
    BlocksHold(k, m, v);
    if 0 <= c < k {
      assert Sats(f, v)[c] == Sats(Players(k), v)[c];
      PlayerSat(k, v, c);
    } else if k <= c < |f| {
      assert Sats(f, v)[c] == Sats(Blocks(k, m), v)[c - k];
    }
  }

  lemma StandingWeigh(k: nat, m: nat, t: nat, w: seq<real>)
    requires t < k == |w|
    ensures AllNormalised(Game(k, m), |Only(k, t)|)
    ensures Weigh(Game(k, m), Only(k, t), w + Base(|Blocks(k, m)|)) == w[t]
  {
    var v := Only(k, t);
    OnlyAt(k, t);
    WeighGame(k, m, v, w);
    PlayersWeigh(k, v, w, t);
    BlocksWeighNothing(k, m, v);
  }

  /** Flipping a variable of the falsified player falsifies a guard in every block. */
  lemma FlippedWeigh(k: nat, m: nat, t: nat, w: seq<real>, x: nat)
    requires t < k == |w| && (x == 1 || x == X(t))
    ensures AllNormalised(Game(k, m), |Only(k, t)|) && x < |Only(k, t)|
    ensures Weigh(Game(k, m), Flipped(Only(k, t), x), w + Base(|Blocks(k, m)|)) >= BASE_WEIGHT * m as real
  {
    var v := Flipped(Only(k, t), x);
    OnlyAt(k, t);
    WeighGame(k, m, v, w);
    var i := if x == 1 then 0 else t + 1;
    GuardSat(k, v, i);
    BlocksWeigh(k, m, v, i);
    if x == 1 { PlayersHold(k, v, w); } else { PlayersWeigh(k, v, w, t); }
  }

  /** The candidates are the two variables of the falsified player, and none of them gains. */
  lemma StandingStuck(k: nat, m: nat, t: nat, w: seq<real>)
    requires t < k == |w| && w[t] <= BASE_WEIGHT * m as real
    ensures Fits(Game(k, m), Standing(k, m, t, w)) && Stuck(Game(k, m), Standing(k, m, t, w))
  {
    hide Weigh;
    var f, s := Game(k, m), Standing(k, m, t, w);
    StandingFits(k, m, t, w);
    forall x | Candidate(f, s.v, x) ensures GainOf(f, s, x) <= 0.0 {
      var c :| Falsified(f, s.v, c) && HasVariable(f[c], x);
      FalsifiedOnly(k, m, t, c);
      PlayerAt(k, t);
      assert f[t] == Players(k)[t];
      StandingWeigh(k, m, t, w);
      FlippedWeigh(k, m, t, w, x);
    }
  }

  // ----- one gift ----------------------------------------------------------------------------

  ghost function Passed(p: Policy, w: seq<real>, d: nat, t: nat): (r: seq<real>)
    requires d < |w| && t < |w|
    ensures |r| == |w|
  {
    Given(p, w, d, t)
  }

  lemma GameSinks(k: nat, m: nat, t: nat)
    requires t < k
    ensures AllNormalised(Game(k, m), |Only(k, t)|) && AreSinks(Game(k, m), Only(k, t), [t])
  {
    GameNormal(k, m);
    forall c: nat ensures c in [t] <==> Falsified(Game(k, m), Only(k, t), c) { FalsifiedOnly(k, m, t, c); }
  }

  /** Any other player may give when it has the base weight; one of two players also when it has
      less, for it is the only neighbour of the other. */
  lemma GameGives(k: nat, m: nat, t: nat, w: seq<real>, p: Policy, d: nat)
    requires t < k == |w| && d < k && d != t
    requires w[d] >= BASE_WEIGHT || (k == 2 && w[d] >= Least(p))
    ensures AllNormalised(Game(k, m), |Only(k, t)|)
    ensures MayGive(Game(k, m), Only(k, t), w + Base(|Blocks(k, m)|), p, t, d)
  {
    hide Neighbours, Only, Game, Sats;
    GameNormal(k, m);
    GameSize(k, m);
    FalsifiedOnly(k, m, t, d);
    SatsNatural(Game(k, m), Only(k, t), d);
    if w[d] < BASE_WEIGHT {
      PlayersMeet(k, m, t, d);
      OnlyOther(m, t, w, p, d);
    }
  }

  lemma GameSize(k: nat, m: nat)
    ensures |Game(k, m)| == k + |Blocks(k, m)|
  {}

  lemma PlayersMeet(k: nat, m: nat, t: nat, d: nat)
    requires t < k && d < k
    ensures d < |Game(k, m)| && Neighbours(Game(k, m)[t], Game(k, m)[d])
  {
    PlayerAt(k, t);
    PlayerAt(k, d);
    assert 1 in Game(k, m)[t] && 1 in Game(k, m)[d];
  }

  /** Of two players, the other is the only source among the neighbours. */
  lemma OnlyOther(m: nat, t: nat, w: seq<real>, p: Policy, d: nat)
    requires t < 2 == |w| && d < 2 && d != t
    ensures AllNormalised(Game(2, m), |Only(2, t)|) && |Game(2, m)| == |w + Base(|Blocks(2, m)|)|
    ensures forall e :: IsSource(Game(2, m), Only(2, t), w + Base(|Blocks(2, m)|), p, e) && Neighbours(Game(2, m)[t], Game(2, m)[e]) ==> e == d
  {
    hide Neighbours, Only, Sats;
    GameNormal(2, m);
    GameSize(2, m);
    hide Game;
    forall e | IsSource(Game(2, m), Only(2, t), w + Base(|Blocks(2, m)|), p, e) && Neighbours(Game(2, m)[t], Game(2, m)[e]) ensures e == d {
      FalsifiedOnly(2, m, t, e);
      OnlyPlayers(2, m, t, e);
    }
  }

  lemma SatsNatural(f: Formula, v: seq<bool>, c: nat)
    requires AllNormalised(f, |v|) && c < |f|
    ensures Sats(f, v)[c] >= 0
  {
    assert Normalised(f[c], |v|);
  }

  /** Only players are neighbours of players. */
  lemma OnlyPlayers(k: nat, m: nat, t: nat, e: nat)
    requires t < k && e < |Game(k, m)| && Neighbours(Game(k, m)[t], Game(k, m)[e])
    ensures e < k
  {
    PlayerAt(k, t);
    if e >= k { BlocksApart(k, m, t, e - k); }
  }

  lemma {:induction false} BlocksApart(k: nat, m: nat, t: nat, c: nat)
    requires t < k && c < |Blocks(k, m)|
    ensures 1 !in Blocks(k, m)[c] && X(t) !in Blocks(k, m)[c]
  {
    if c < |Blocks(k, m - 1)| { BlocksApart(k, m - 1, t, c); } else { GuardAt(k, c - |Blocks(k, m - 1)|); }
  }

  lemma OneGift(k: nat, m: nat, t: nat, w: seq<real>, p: Policy, d: nat)
    requires t < k == |w| && d < k && d != t && w[t] <= BASE_WEIGHT * m as real
    requires w[d] >= BASE_WEIGHT || (k == 2 && w[d] >= Least(p))
    ensures var f, s, steps := Game(k, m), Standing(k, m, t, w), [Round([t]), Gift(d)];
            Legal(f, p, s, steps) && After(f, p, s, steps) == Standing(k, m, t, Passed(p, w, d, t))
  {
    hide Stuck, Weigh, MayGive, AreSinks, Only, Game, Amount;
    var f, s := Game(k, m), Standing(k, m, t, w);
    StandingStuck(k, m, t, w);
    GameSinks(k, m, t);
    GameGives(k, m, t, w, p, d);
    GivenPlayers(p, w, Base(|Blocks(k, m)|), d, t);
    var r := Next(f, p, s, Round([t]));
    assert r.sinks[1..] == [];
    var u := Next(f, p, r, Gift(d));
    assert u == Standing(k, m, t, Passed(p, w, d, t));
    OneStep(f, p, r, Gift(d));
    assert [Round([t]), Gift(d)][1..] == [Gift(d)];
  }

  lemma GivenPlayers(p: Policy, w: seq<real>, rest: seq<real>, d: nat, t: nat)
    requires d < |w| && t < |w|
    ensures Given(p, w + rest, d, t) == Given(p, w, d, t) + rest
  {}

  // ----- many gifts of one clause to another ----------------------------------------------------

  /** What is left of weight x after n gifts. */
  ghost function Left(p: Policy, x: real, n: nat): real
    decreases n
  {
    if n == 0 then x else Left(p, x - Amount(p, x), n - 1)
  }

  ghost function GiftSteps(d: nat, t: nat, n: nat): seq<Step> {
    if n == 0 then [] else [Round([t]), Gift(d)] + GiftSteps(d, t, n - 1)
  }

  /** n gifts of player d to player t. */
  ghost function Drained(p: Policy, w: seq<real>, d: nat, t: nat, n: nat): (r: seq<real>)
    requires d < |w| && t < |w|
    ensures |r| == |w|
    decreases n
  {
    if n == 0 then w else Drained(p, Passed(p, w, d, t), d, t, n - 1)
  }

  lemma {:induction false} DrainedAt(p: Policy, w: seq<real>, d: nat, t: nat, n: nat)
    requires d < |w| && t < |w| && d != t
    ensures var r := Drained(p, w, d, t, n);
            r[d] == Left(p, w[d], n) && r[t] == w[t] + w[d] - Left(p, w[d], n)
    decreases n
  {
    hide Amount;
    if n > 0 { DrainedAt(p, Passed(p, w, d, t), d, t, n - 1); }
  }

  /** Each of the n gifts may be made. */
  ghost predicate CanGive(p: Policy, k: nat, x: real, n: nat) {
    forall j: nat :: j < n ==> LeftOK(p, k, Left(p, x, j))
  }

  ghost predicate LeftOK(p: Policy, k: nat, x: real) {
    x >= BASE_WEIGHT || (k == 2 && x >= Least(p) && x >= 0.0)
  }

  lemma CanGiveNext(p: Policy, k: nat, x: real, n: nat)
    requires n > 0 && CanGive(p, k, x, n)
    ensures LeftOK(p, k, x) && CanGive(p, k, x - Amount(p, x), n - 1)
  {
    hide Amount, LeftOK;
    assert Left(p, x, 0) == x;
    var y := x - Amount(p, x);
    forall j: nat | j < n - 1 ensures LeftOK(p, k, Left(p, y, j)) {
      assert Left(p, x, j + 1) == Left(p, y, j);
    }
  }

  lemma {:induction false} Drains(k: nat, m: nat, p: Policy, t: nat, w: seq<real>, d: nat, n: nat)
    requires t < k == |w| && d < k && d != t && w[t] + w[d] <= BASE_WEIGHT * m as real && CanGive(p, k, w[d], n)
    ensures var f, s, steps := Game(k, m), Standing(k, m, t, w), GiftSteps(d, t, n);
            Legal(f, p, s, steps) && After(f, p, s, steps) == Standing(k, m, t, Drained(p, w, d, t, n))
    decreases n
  {
    hide Game, Standing, Amount, LeftOK, CanGive, Fits, Enabled;
    var f, s := Game(k, m), Standing(k, m, t, w);
    if n == 0 {
      StandingFits(k, m, t, w);
    } else {
      CanGiveNext(p, k, w[d], n);
      GiverNow(p, k, m, t, w, d);
      OneGift(k, m, t, w, p, d);
      var u := Passed(p, w, d, t);
      Drains(k, m, p, t, u, d, n - 1);
      Joined(f, p, s, [Round([t]), Gift(d)], GiftSteps(d, t, n - 1));
    }
  }

  lemma GiverNow(p: Policy, k: nat, m: nat, t: nat, w: seq<real>, d: nat)
    requires t < k == |w| && d < k && d != t && w[t] + w[d] <= BASE_WEIGHT * m as real && LeftOK(p, k, w[d])
    ensures w[t] <= BASE_WEIGHT * m as real && (w[d] >= BASE_WEIGHT || (k == 2 && w[d] >= Least(p)))
    ensures Passed(p, w, d, t)[t] + Passed(p, w, d, t)[d] == w[t] + w[d] && Passed(p, w, d, t)[d] == w[d] - Amount(p, w[d])
  {
    hide Amount;
  }

  // ----- what a clause below zero means ----------------------------------------------------------

  /** No candidate gains, some clause is falsified, and yet a flip gains. */
  ghost predicate FalseMinimum(f: Formula, s: Point) {
    Fits(f, s) && s.sinks == [] && Stuck(f, s) && !TrueMinimum(f, s) && exists c :: Falsified(f, s.v, c)
  }

  /** Flipping the variable of a player below zero gains. */
  lemma BelowZeroGains(k: nat, m: nat, t: nat, w: seq<real>, d: nat)
    requires t < k == |w| && d < k && d != t && w[t] <= BASE_WEIGHT * m as real && w[d] < 0.0
    ensures FalseMinimum(Game(k, m), Standing(k, m, t, w)) && !Nonnegative(Standing(k, m, t, w).w)
  {
    var f, s := Game(k, m), Standing(k, m, t, w);
    StandingStuck(k, m, t, w);
    StandingWeigh(k, m, t, w);
    FlippedOther(k, m, t, w, d);
    FalsifiedOnly(k, m, t, t);
    assert GainOf(f, s, X(d)) == -w[d];
    assert s.w[d] == w[d];
  }

  lemma FlippedOther(k: nat, m: nat, t: nat, w: seq<real>, d: nat)
    requires t < k == |w| && d < k && d != t
    ensures AllNormalised(Game(k, m), |Only(k, t)|) && X(d) < |Only(k, t)|
    ensures Weigh(Game(k, m), Flipped(Only(k, t), X(d)), w + Base(|Blocks(k, m)|)) == w[t] + w[d]
  {
    var v := Flipped(Only(k, t), X(d));
    OnlyAt(k, t);
    WeighGame(k, m, v, w);
    StillGuarded(k, t, d);
    BlocksWeighNothing(k, m, v);
    hide Only, Guarded, Weigh;
    TwoFalsified(k, v, w, t, d);
  }

  lemma StillGuarded(k: nat, t: nat, d: nat)
    requires t < k && d < k && d != t
    ensures X(d) < |Only(k, t)|
    ensures var v := Flipped(Only(k, t), X(d));
            Guarded(k, v) && !v[1] && !v[X(t)] && !v[X(d)] && forall j :: 0 <= j < k && j != t && j != d ==> v[X(j)]
  {
    OnlyAt(k, t);
  }

  lemma TwoFalsified(k: nat, v: seq<bool>, w: seq<real>, t: nat, d: nat)
    requires t < k == |w| && d < k && d != t && |v| == 3 + 2 * k && !v[1] && !v[X(t)] && !v[X(d)]
    requires forall j :: 0 <= j < k && j != t && j != d ==> v[X(j)]
    ensures AllNormalised(Players(k), |v|) && Weigh(Players(k), v, w) == w[t] + w[d]
  {
    GameNormal(k, 0);
    var terms := FalsifiedTerms(Sats(Players(k), v), w);
    forall j | 0 <= j < k ensures terms[j] == if j == t || j == d then w[j] else 0.0 { PlayerSat(k, v, j); }
    SumUpdate(terms, d, 0.0);
    SumOnly(terms[d := 0.0], t);
  }

  // ----- options under which any weight may give ------------------------------------------------------

  /** The least that an unsafe rule takes from a clause of at most the base weight. */
  function Pace(p: Policy): real {
    if p.rule == 3 then 2.0
    else if p.rule == 1 then BASE_WEIGHT * p.shares.init
    else BASE_WEIGHT * if p.shares.init < p.shares.base then p.shares.init else p.shares.base
  }

  lemma Paced(p: Policy, x: real)
    requires Allowed(p) && !Safe(p) && p.bestwzero && 0.0 <= x <= BASE_WEIGHT
    ensures 0.0 < Pace(p) <= Amount(p, x) <= 200.0
  {
    Product(x, p.shares.curr);
  }

  /** Gifts go on until the weight is below zero. */
  lemma {:induction false} Exhausts(p: Policy, x: real, fuel: nat) returns (n: nat)
    requires Allowed(p) && !Safe(p) && p.bestwzero && 0.0 <= x <= BASE_WEIGHT && x < fuel as real * Pace(p)
    ensures -200.0 <= Left(p, x, n) < 0.0 && CanGive(p, 2, x, n)
    decreases fuel
  {
    hide Amount, Safe, Pace;
    Paced(p, x);
    var y := x - Amount(p, x);
    if y < 0.0 {
      n := 1;
      assert Left(p, x, 1) == Left(p, y, 0) == y;
      assert Left(p, x, 0) == x;
    } else {
      assert y < (fuel - 1) as real * Pace(p) by { LessFuel(fuel, Pace(p)); }
      var i := Exhausts(p, y, fuel - 1);
      n := i + 1;
      CanGiveMore(p, 2, x, i);
    }
  }

  lemma LessFuel(fuel: nat, pace: real)
    requires fuel > 0
    ensures (fuel - 1) as real * pace == fuel as real * pace - pace
  {}

  lemma CanGiveMore(p: Policy, k: nat, x: real, n: nat)
    requires LeftOK(p, k, x) && CanGive(p, k, x - Amount(p, x), n)
    ensures CanGive(p, k, x, n + 1)
  {
    hide Amount, LeftOK;
    forall j: nat | j < n + 1 ensures LeftOK(p, k, Left(p, x, j)) {
      if j > 0 { assert Left(p, x, j) == Left(p, x - Amount(p, x), j - 1); }
    }
  }

  /** Enough steps of a given size. */
  lemma Enough(x: real, step: real) returns (n: nat)
    requires x >= 0.0 && step > 0.0
    ensures x < n as real * step
  {
    var q := x / step;
    n := q.Floor + 1;
    assert n as real > q;
    assert q * step == x;
    Larger(n as real, q, step);
  }

  lemma Larger(a: real, b: real, x: real)
    requires a > b && x > 0.0
    ensures a * x > b * x
  {
    assert a * x - b * x == (a - b) * x;
  }

  /** Two players are enough: the first gives to the second until it is below zero. */
  lemma UnsafeZero(p: Policy) returns (steps: seq<Step>)
    requires Allowed(p) && !Safe(p) && p.bestwzero
    ensures var f, s := Game(2, 4), Start(Game(2, 4), Only(2, 1));
            && Legal(f, p, s, steps) && FalseMinimum(f, After(f, p, s, steps)) && !Nonnegative(After(f, p, s, steps).w)
  {
    hide Game, Only, Safe, Pace, Left, CanGive, Drained;
    Paced(p, BASE_WEIGHT);
    var fuel := Enough(BASE_WEIGHT, Pace(p));
    var n := Exhausts(p, BASE_WEIGHT, fuel);
    steps := GiftSteps(0, 1, n);
    StartStanding(2, 4, 1);
    Drains(2, 4, p, 1, Base(2), 0, n);
    DrainedAt(p, Base(2), 0, 1, n);
    BelowZeroGains(2, 4, 1, Drained(p, Base(2), 0, 1, n), 0);
  }

  lemma StartStanding(k: nat, m: nat, t: nat)
    ensures Start(Game(k, m), Only(k, t)) == Standing(k, m, t, Base(k))
  {
    assert Base(k) + Base(|Blocks(k, m)|) == seq(|Game(k, m)|, _ => BASE_WEIGHT);
  }

  // ----- the linear rule when a giver needs the base weight ----------------------------------------

  /** How far the shares of a weight above the base weight are too much. */
  predicate Steep(p: Policy) {
    p.rule == 2 && p.shares.init > 0.0 && p.shares.curr + p.shares.base > 1.0
  }

  lemma UnsafeIsSteep(p: Policy)
    requires Allowed(p) && !Safe(p) && !p.bestwzero
    ensures Steep(p)
  {}

  /** What a clause above the base weight keeps: a share q of it, less b. */
  function Keeps(x: real, q: real, b: real): real { x * q - b }

  /** The weight of which y is kept. */
  function Back(y: real, q: real, b: real): real
    requires q > 0.0
  {
    (y + b) / q
  }

  lemma Ordered(a: real, b: real, q: real)
    requires q > 0.0
    ensures a < b <==> a * q < b * q
  {
    if a < b { Larger(b, a, q); }
    if b < a { Larger(a, b, q); }
  }

  lemma BackIs(y: real, q: real, b: real)
    requires q > 0.0
    ensures Back(y, q, b) * q == y + b
  {}

  lemma BackOrder(x: real, y: real, q: real, b: real)
    requires q > 0.0
    ensures Back(y, q, b) < x <==> y < Keeps(x, q, b)
    ensures x < Back(y, q, b) <==> Keeps(x, q, b) < y
  {
    hide Back;
    BackIs(y, q, b);
    Ordered(Back(y, q, b), x, q);
    Ordered(x, Back(y, q, b), q);
  }

  /** From a weight strictly between these bounds, n gifts lead to one between the first two
      bounds, and one gift more below zero. */
  function Low(n: nat, q: real, b: real): real
    requires q > 0.0
  {
    if n == 0 then BASE_WEIGHT else Back(Low(n - 1, q, b), q, b)
  }

  function High(n: nat, q: real, b: real): real
    requires q > 0.0
  {
    if n == 0 then Back(0.0, q, b) else Back(High(n - 1, q, b), q, b)
  }

  lemma KeepsBounds(n: nat, x: real, q: real, b: real)
    requires q > 0.0 && Low(n, q, b) < x < High(n, q, b)
    ensures if n == 0 then Keeps(x, q, b) < 0.0 else Low(n - 1, q, b) < Keeps(x, q, b) < High(n - 1, q, b)
  {
    hide Back, Keeps;
    if n == 0 {
      BackOrder(x, 0.0, q, b);
    } else {
      BackOrder(x, Low(n - 1, q, b), q, b);
      BackOrder(x, High(n - 1, q, b), q, b);
    }
  }

  lemma {:induction false} LowAbove(n: nat, q: real, b: real)
    requires 0.0 < q <= 1.0 && b >= 0.0
    ensures Low(n, q, b) >= BASE_WEIGHT
  {
    hide Back;
    if n > 0 {
      LowAbove(n - 1, q, b);
      BackOrder(BASE_WEIGHT, Low(n - 1, q, b), q, b);
    }
  }

  function Width(n: nat, q: real, b: real): real
    requires q > 0.0
  {
    High(n, q, b) - Low(n, q, b)
  }

  lemma FirstWidth(q: real, b: real)
    requires 0.0 < q <= 1.0 && b > BASE_WEIGHT * q
    ensures Width(0, q, b) > 0.0
  {
    hide Back;
    BackOrder(BASE_WEIGHT, 0.0, q, b);
  }

  lemma NextWidth(n: nat, q: real, b: real)
    requires q > 0.0 && n > 0
    ensures Width(n, q, b) * q == Width(n - 1, q, b)
  {
    hide Back;
    BackIs(High(n - 1, q, b), q, b);
    BackIs(Low(n - 1, q, b), q, b);
    Distribute(High(n, q, b), Low(n, q, b), q);
  }

  lemma Distribute(a: real, b: real, q: real)
    ensures (a - b) * q == a * q - b * q
  {}

  /** The width grows at least by the same amount each time. */
  lemma {:induction false} WidthGrows(n: nat, q: real, b: real)
    requires 0.0 < q <= 1.0 && b > BASE_WEIGHT * q
    ensures Width(0, q, b) > 0.0
    ensures Width(n, q, b) >= Width(0, q, b) + n as real * ((1.0 - q) * Width(0, q, b))
  {
    hide Width;
    FirstWidth(q, b);
    if n > 0 {
      WidthGrows(n - 1, q, b);
      NextWidth(n, q, b);
      var step := (1.0 - q) * Width(0, q, b);
      LessFuel(n, step);
      NotBelow(n - 1, 1.0 - q, Width(0, q, b));
      Stretch(Width(n, q, b), Width(n - 1, q, b), Width(0, q, b), q, (n - 1) as real * step);
    }
  }

  lemma NotBelow(n: nat, c: real, x: real)
    requires c >= 0.0 && x >= 0.0
    ensures c * x >= 0.0 && n as real * (c * x) >= 0.0
  {
    Grows(0.0, c, x);
    Grows(0.0, n as real, c * x);
  }

  lemma Stretch(a: real, b: real, first: real, q: real, more: real)
    requires 0.0 < q <= 1.0 && first > 0.0 && a * q == b && b >= first + more && more >= 0.0
    ensures a >= first + more + (1.0 - q) * first
  {
    Ordered(0.0, a, q);
    Grows(0.0, a, 1.0 - q);
    Turned(a, b, q);
    Grows(first, a, 1.0 - q);
  }

  lemma Turned(a: real, b: real, q: real)
    requires a * q == b
    ensures a == b + a * (1.0 - q)
  {}

  /** The amount the linear rule takes above the base weight. */
  lemma AmountKeeps(p: Policy, x: real)
    requires p.rule == 2 && x != BASE_WEIGHT
    ensures x - Amount(p, x) == Keeps(x, 1.0 - p.shares.curr, BASE_WEIGHT * p.shares.base)
  {
    hide Amount;
    LinearAmount(p, x);
    Rest(x, p.shares.curr);
  }

  /** From between the bounds, the weight falls below zero with the last of n + 1 gifts. */
  lemma {:induction false} Slides(p: Policy, k: nat, n: nat, x: real)
    requires Allowed(p) && Steep(p) && p.shares.curr < 1.0
    requires var q, b := 1.0 - p.shares.curr, BASE_WEIGHT * p.shares.base; Low(n, q, b) < x < High(n, q, b)
    ensures CanGive(p, k, x, n + 1) && -BASE_WEIGHT <= Left(p, x, n + 1) < 0.0
    decreases n
  {
    hide Amount, Low, High, Keeps, Left, CanGive;
    var q, b := 1.0 - p.shares.curr, BASE_WEIGHT * p.shares.base;
    LowAbove(n, q, b);
    KeepsBounds(n, x, q, b);
    AmountKeeps(p, x);
    var y := x - Amount(p, x);
    LeftNext(p, x, n + 1);
    if n == 0 {
      KeepsLeast(x, q, b);
      LeftNone(p, k, y);
    } else {
      Slides(p, k, n - 1, y);
    }
    CanGiveMore(p, k, x, n);
  }

  lemma LeftNext(p: Policy, x: real, n: nat)
    requires n > 0
    ensures Left(p, x, n) == Left(p, x - Amount(p, x), n - 1)
  {}

  lemma LeftNone(p: Policy, k: nat, x: real)
    ensures Left(p, x, 0) == x && CanGive(p, k, x, 0)
  {}

  lemma KeepsLeast(x: real, q: real, b: real)
    requires x >= 0.0 && q > 0.0 && b <= BASE_WEIGHT
    ensures Keeps(x, q, b) >= -BASE_WEIGHT
  {
    Grows(0.0, x, q);
  }

  /** What a clause has that received m times from others of the base weight. */
  function Heap(i: real, m: nat): real { BASE_WEIGHT + m as real * i }

  /** How often the gatherer must receive, and then give, to fall below zero. */
  lemma Plan(p: Policy, k: nat) returns (gets: nat, gives: nat)
    requires Allowed(p) && Steep(p)
    ensures var x := Heap(BASE_WEIGHT * p.shares.init, gets);
            CanGive(p, k, x, gives) && -BASE_WEIGHT <= Left(p, x, gives) < 0.0
  {
    hide Left, CanGive, Heap;
    if p.shares.curr == 1.0 {
      gets, gives := 1, 1;
      AllGiven(p, k);
    } else {
      gets, gives := PlanSlide(p, k);
    }
  }

  lemma PlanSlide(p: Policy, k: nat) returns (gets: nat, gives: nat)
    requires Allowed(p) && Steep(p) && p.shares.curr < 1.0
    ensures var x := Heap(BASE_WEIGHT * p.shares.init, gets);
            CanGive(p, k, x, gives) && -BASE_WEIGHT <= Left(p, x, gives) < 0.0
  {
    hide Left, CanGive, Low, High, Width, Heap;
    var q, b, i := 1.0 - p.shares.curr, BASE_WEIGHT * p.shares.base, BASE_WEIGHT * p.shares.init;
    var n := WideEnough(q, b, i);
    LowAbove(n, q, b);
    WidthIs(n, q, b);
    gets := Between(Low(n, q, b), High(n, q, b), i);
    gives := n + 1;
    Slides(p, k, n, Heap(i, gets));
  }

  lemma WidthIs(n: nat, q: real, b: real)
    requires q > 0.0
    ensures Width(n, q, b) == High(n, q, b) - Low(n, q, b)
  {}

  lemma WideEnough(q: real, b: real, i: real) returns (n: nat)
    requires 0.0 < q < 1.0 && b > BASE_WEIGHT * q && i >= 0.0
    ensures Width(n, q, b) > i
  {
    hide Width;
    FirstWidth(q, b);
    Larger(1.0 - q, 0.0, Width(0, q, b));
    n := Enough(i, (1.0 - q) * Width(0, q, b));
    WidthGrows(n, q, b);
  }

  /** When all of the current weight goes, one gift above the base weight is enough. */
  lemma AllGiven(p: Policy, k: nat)
    requires Allowed(p) && Steep(p) && p.shares.curr == 1.0
    ensures var x := Heap(BASE_WEIGHT * p.shares.init, 1);
            CanGive(p, k, x, 1) && -BASE_WEIGHT <= Left(p, x, 1) < 0.0
  {
    hide Amount, Left, CanGive;
    var x := Heap(BASE_WEIGHT * p.shares.init, 1);
    AmountKeeps(p, x);
    LeftNext(p, x, 1);
    LeftNone(p, k, x - Amount(p, x));
    CanGiveMore(p, k, x, 0);
  }

  /** Some number of steps from the base weight ends strictly between bounds further apart than a step. */
  lemma Between(low: real, high: real, step: real) returns (m: nat)
    requires low >= BASE_WEIGHT && step > 0.0 && high - low > step
    ensures low < Heap(step, m) < high
  {
    var top := Enough(low - BASE_WEIGHT, step);
    m := FirstBeyond(low - BASE_WEIGHT, step, top);
    if m > 0 { LessFuel(m, step); }
  }

  /** The least number of steps beyond x. */
  lemma {:induction false} FirstBeyond(x: real, step: real, top: nat) returns (m: nat)
    requires x >= 0.0 && step > 0.0 && x < top as real * step
    ensures x < m as real * step && (m > 0 ==> (m - 1) as real * step <= x)
    decreases top
  {
    if top > 0 && x < (top - 1) as real * step { m := FirstBeyond(x, step, top - 1); } else { m := top; }
  }

  // ----- gathering weight, then giving it away ------------------------------------------------------

  /** The players' weights after player 0 has received from players 2, ..., n + 1. */
  ghost function Gathered(p: Policy, k: nat, n: nat): (w: seq<real>)
    requires n + 2 <= k
    ensures |w| == k
  {
    if n == 0 then Base(k) else Passed(p, Gathered(p, k, n - 1), n + 1, 0)
  }

  ghost function GatherSteps(n: nat): seq<Step> {
    if n == 0 then [] else GatherSteps(n - 1) + [Round([0]), Gift(n + 1)]
  }

  lemma {:induction false} GatheredAt(p: Policy, k: nat, n: nat)
    requires n + 2 <= k && p.rule == 2
    ensures var w := Gathered(p, k, n);
            && w[0] == Heap(BASE_WEIGHT * p.shares.init, n) && w[1] == BASE_WEIGHT
            && forall j :: n + 2 <= j < k ==> w[j] == BASE_WEIGHT
  {
    if n > 0 {
      GatheredAt(p, k, n - 1);
      LessFuel(n, BASE_WEIGHT * p.shares.init);
    }
  }

  lemma HeapFits(i: real, n: nat)
    requires 0.0 <= i <= BASE_WEIGHT
    ensures BASE_WEIGHT <= Heap(i, n) <= BASE_WEIGHT + BASE_WEIGHT * n as real
  {
    Grows(0.0, i, n as real);
    Grows(i, BASE_WEIGHT, n as real);
  }

  lemma {:induction false} Gathers(k: nat, m: nat, p: Policy, n: nat)
    requires Allowed(p) && p.rule == 2 && n + 2 <= k <= m
    ensures var f, s := Game(k, m), Standing(k, m, 0, Base(k));
            Legal(f, p, s, GatherSteps(n)) && After(f, p, s, GatherSteps(n)) == Standing(k, m, 0, Gathered(p, k, n))
  {
    hide Game, Standing, Amount, Fits, Enabled, Heap;
    var f, s := Game(k, m), Standing(k, m, 0, Base(k));
    if n == 0 {
      StandingFits(k, m, 0, Base(k));
    } else {
      Gathers(k, m, p, n - 1);
      GatheredAt(p, k, n - 1);
      HeapFits(BASE_WEIGHT * p.shares.init, n - 1);
      var w := Gathered(p, k, n - 1);
      assert w[0] <= BASE_WEIGHT * m as real;
      OneGift(k, m, 0, w, p, n + 1);
      Joined(f, p, s, GatherSteps(n - 1), [Round([0]), Gift(n + 1)]);
    }
  }

  /** After a restart another player is the one that receives. */
  lemma Turns(k: nat, m: nat, p: Policy, w: seq<real>)
    requires |w| == k
    ensures var f, s, e := Game(k, m), Standing(k, m, 0, w), Restart(Only(k, 1));
            Legal(f, p, s, [e]) && After(f, p, s, [e]) == Standing(k, m, 1, w)
  {
    StandingFits(k, m, 0, w);
    OneStep(Game(k, m), p, Standing(k, m, 0, w), Restart(Only(k, 1)));
  }

  lemma UnsafeSteep(p: Policy) returns (k: nat, steps: seq<Step>)
    requires Allowed(p) && Steep(p)
    ensures var f, s := Game(k, k + 2), Start(Game(k, k + 2), Only(k, 0));
            && Legal(f, p, s, steps) && FalseMinimum(f, After(f, p, s, steps)) && !Nonnegative(After(f, p, s, steps).w)
  {
    hide Game, Only, Standing, Heap, Left, CanGive, Drained, Fits, Enabled, Gathered, GatherSteps, GiftSteps, FalseMinimum, Nonnegative;
    var gets, gives := PlanFor(p);
    k := gets + 2;
    var m := k + 2;
    var f, s, w := Game(k, m), Standing(k, m, 0, Base(k)), Gathered(p, k, gets);
    StartStanding(k, m, 0);
    Gathers(k, m, p, gets);
    GatheredAt(p, k, gets);
    HeapFits(BASE_WEIGHT * p.shares.init, gets);
    Turns(k, m, p, w);
    var turned := GatherSteps(gets) + [Restart(Only(k, 1))];
    Joined(f, p, s, GatherSteps(gets), [Restart(Only(k, 1))]);
    Drains(k, m, p, 1, w, 0, gives);
    steps := turned + GiftSteps(0, 1, gives);
    Joined(f, p, s, turned, GiftSteps(0, 1, gives));
    DrainedAt(p, w, 0, 1, gives);
    BelowZeroGains(k, m, 1, Drained(p, w, 0, 1, gives), 0);
  }

  /** The plan for as many players as it needs. */
  lemma PlanFor(p: Policy) returns (gets: nat, gives: nat)
    requires Allowed(p) && Steep(p)
    ensures var x := Heap(BASE_WEIGHT * p.shares.init, gets);
            CanGive(p, gets + 2, x, gives) && -BASE_WEIGHT <= Left(p, x, gives) < 0.0
  {
    hide Left, Heap;
    gets, gives := Plan(p, 0);
    var x := Heap(BASE_WEIGHT * p.shares.init, gets);
    forall j: nat | j < gives ensures LeftOK(p, gets + 2, Left(p, x, j)) { assert LeftOK(p, 0, Left(p, x, j)); }
  }

  // ----- exactly which options are safe --------------------------------------------------------------

  /** A formula that is not solved or refuted before the search: it has a model, and no clause is a unit. */
  ghost predicate Open(f: Formula) {
    (exists a :: Models(a, f)) && forall i :: 0 <= i < |f| ==> |f[i]| >= 2
  }

  lemma GameOpen(k: nat, m: nat)
    ensures Open(Game(k, m))
  {
    GameNormal(k, m);
    var a: Assignment := iset x: int | Positive(x);
    forall i | 0 <= i < |Game(k, m)| ensures Satisfies(a, Game(k, m)[i]) {
      SomePositive(k, m, i);
      var l :| l in Game(k, m)[i] && Positive(l);
      assert Holds(a, l);
    }
    assert Models(a, Game(k, m));
  }

  predicate Positive(l: int) { l > 0 }

  ghost predicate HasPositive(c: Clause) {
    exists l :: l in c && Positive(l)
  }

  lemma SomePositive(k: nat, m: nat, i: nat)
    requires i < |Game(k, m)|
    ensures HasPositive(Game(k, m)[i])
  {
    if i < k {
      PlayerAt(k, i);
      assert 1 in Game(k, m)[i] && Positive(1);
    } else {
      BlockPositive(k, m, i - k);
    }
  }

  lemma {:induction false} BlockPositive(k: nat, m: nat, i: nat)
    requires i < |Blocks(k, m)|
    ensures HasPositive(Blocks(k, m)[i])
  {
    var n := |Blocks(k, m - 1)|;
    if i < n {
      BlockPositive(k, m - 1, i);
    } else {
      GuardAt(k, i - n);
      var c := Guards(k)[i - n];
      assert Blocks(k, m)[i] == c && c[1] in c && Positive(c[1]);
    }
  }

  /** Some run from the base weights ends below zero, at a minimum that is none. */
  ghost predicate Fails(p: Policy) {
    exists f, v, steps :: Failing(f, v, p, steps)
  }

  ghost predicate Failing(f: Formula, v: seq<bool>, p: Policy, steps: seq<Step>) {
    && Open(f) && Legal(f, p, Start(f, v), steps)
    && !Nonnegative(After(f, p, Start(f, v), steps).w) && FalseMinimum(f, After(f, p, Start(f, v), steps))
  }

  lemma UnsafeFails(p: Policy)
    requires Allowed(p) && !Safe(p)
    ensures Fails(p)
  {
    hide Safe, Open, Game, Only, Legal, FalseMinimum, Nonnegative, Steep;
    if p.bestwzero {
      var steps := UnsafeZero(p);
      GameOpen(2, 4);
      assert Failing(Game(2, 4), Only(2, 1), p, steps);
    } else {
      UnsafeIsSteep(p);
      var k, steps := UnsafeSteep(p);
      GameOpen(k, k + 2);
      assert Failing(Game(k, k + 2), Only(k, 0), p, steps);
    }
  }

  /** With safe options every run from the base weights keeps all weights at least zero,
      and every minimum is one. */
  lemma SafeHolds(f: Formula, v: seq<bool>, p: Policy, steps: seq<Step>)
    requires Allowed(p) && Safe(p) && Legal(f, p, Start(f, v), steps)
    ensures Nonnegative(After(f, p, Start(f, v), steps).w) && !FalseMinimum(f, After(f, p, Start(f, v), steps))
  {
    hide Safe, Legal;
    SafeRun(f, v, p, steps);
    var t := After(f, p, Start(f, v), steps);
    if Stuck(f, t) { StuckIsTrue(f, t); }
  }

  /** The options decide: over all runs weights stay at least zero exactly if they are safe. */
  lemma SafeExactly(p: Policy)
    requires Allowed(p)
    ensures Safe(p) <==> !Fails(p)
    ensures Safe(p) <==> forall f, v, steps :: Legal(f, p, Start(f, v), steps) ==> Nonnegative(After(f, p, Start(f, v), steps).w)
    ensures Safe(p) <==> forall f, v, steps :: Legal(f, p, Start(f, v), steps) ==> !FalseMinimum(f, After(f, p, Start(f, v), steps))
  {
    hide Safe, Legal, FalseMinimum, Nonnegative, Open;
    if Safe(p) {
      forall f, v, steps | Legal(f, p, Start(f, v), steps)
        ensures Nonnegative(After(f, p, Start(f, v), steps).w) && !FalseMinimum(f, After(f, p, Start(f, v), steps))
      {
        SafeHolds(f, v, p, steps);
      }
    } else {
      UnsafeFails(p);
      var f, v, steps :| Failing(f, v, p, steps);
      assert Legal(f, p, Start(f, v), steps) && !Nonnegative(After(f, p, Start(f, v), steps).w);
    }
  }

  // ----- the options as they come ----------------------------------------------------------------------

  /** The linear rule, all of the initial weight, and any weight may give. */
  const DEFAULT := Policy(2, Shares(1.0, 0.175, 0.075), true)

  /** Two transfers in a row take 100 and then 17.5 from one clause; then no candidate gains,
      although a flip does. */
  lemma DefaultFails()
    ensures Allowed(DEFAULT) && !Safe(DEFAULT) && Open(Game(2, 4))
    ensures var f, s, steps := Game(2, 4), Start(Game(2, 4), Only(2, 1)), [Round([1]), Gift(0), Round([1]), Gift(0)];
            && Legal(f, DEFAULT, s, steps)
            && After(f, DEFAULT, s, steps) == Standing(2, 4, 1, [-17.5, 217.5])
            && FalseMinimum(f, After(f, DEFAULT, s, steps))
  {
    hide Game, Only, Fits, Enabled, FalseMinimum, Legal, After;
    GameOpen(2, 4);
    StartStanding(2, 4, 1);
    TwoGifts();
    Drains(2, 4, DEFAULT, 1, Base(2), 0, 2);
    BelowZeroGains(2, 4, 1, [-17.5, 217.5], 0);
  }

  lemma TwoGifts()
    ensures CanGive(DEFAULT, 2, BASE_WEIGHT, 2)
    ensures Drained(DEFAULT, Base(2), 0, 1, 2) == [-17.5, 217.5]
    ensures GiftSteps(0, 1, 2) == [Round([1]), Gift(0), Round([1]), Gift(0)]
  {
    assert Base(2) == [100.0, 100.0];
    assert Passed(DEFAULT, [100.0, 100.0], 0, 1) == [0.0, 200.0];
    assert Passed(DEFAULT, [0.0, 200.0], 0, 1) == [-17.5, 217.5];
    assert Drained(DEFAULT, [0.0, 200.0], 0, 1, 1) == Drained(DEFAULT, [-17.5, 217.5], 0, 1, 0);
    assert Left(DEFAULT, 100.0, 0) == 100.0 && Left(DEFAULT, 100.0, 1) == Left(DEFAULT, 0.0, 0) == 0.0;
    assert GiftSteps(0, 1, 1) == [Round([1]), Gift(0)] + GiftSteps(0, 1, 0);
  }
}
