/** How much weight a transfer moves, and when that lets a weight fall below zero. */
module Transfer {
  import opened Cnf
  import opened Tally
  import opened Weights

  const BASE_WEIGHT := 100.0

  /** The parts of the initial, base and current weight that are moved. */
  datatype Shares = Shares(init: real, base: real, curr: real)

  /** The rule, its shares, and whether a clause of any weight from zero up may give. */
  datatype Policy = Policy(rule: int, shares: Shares, bestwzero: bool)

  /** The shares are given in thousandths, from none to all. */
  predicate Allowed(p: Policy) {
    0.0 <= p.shares.init <= 1.0 && 0.0 <= p.shares.base <= 1.0 && 0.0 <= p.shares.curr <= 1.0
  }

  /** How much weight a clause of weight w gives away. */
  function Amount(p: Policy, w: real): real {
    var shares := p.shares;
    if p.rule == 1 then (if w > BASE_WEIGHT then shares.base else shares.init) * BASE_WEIGHT
    else if p.rule == 2 then
      (if w == BASE_WEIGHT then BASE_WEIGHT * shares.init else w * shares.curr + BASE_WEIGHT * shares.base)
    else if p.rule == 3 then (if w > BASE_WEIGHT then 0.05 * w + 1.0 else 0.1 * w + 2.0)
    else 0.0
  }

  /** The least weight of a clause that may give. */
  function Least(p: Policy): real {
    if p.bestwzero then 0.0 else BASE_WEIGHT
  }

  /** No clause that may give is asked for more than it has. */
  ghost predicate Affordable(p: Policy) {
    forall w :: w >= Least(p) ==> Gives(p, w)
  }

  ghost predicate Gives(p: Policy, w: real) { Amount(p, w) <= w }

  /** What the options must be for that. */
  predicate Moderate(p: Policy) {
    match p.rule
    case 1 => p.bestwzero ==> p.shares.init == 0.0
    case 2 => if p.bestwzero then p.shares.base == 0.0 else p.shares.curr + p.shares.base <= 1.0
    case 3 => !p.bestwzero
    case _ => true
  }

  lemma AmountNonnegative(p: Policy, w: real)
    requires Allowed(p) && w >= 0.0
    ensures Amount(p, w) >= 0.0
  {
    Product(w, p.shares.curr);
  }

  lemma Product(a: real, b: real)
    requires a >= 0.0 && 0.0 <= b <= 1.0
    ensures 0.0 <= a * b <= a
  {
    assert a - a * b == a * (1.0 - b);
  }

  /** The options decide whether a clause can be asked for more than it has. */
  lemma AffordableExactly(p: Policy)
    requires Allowed(p)
    ensures Affordable(p) <==> Moderate(p)
  {
    if Moderate(p) {
      forall w | w >= Least(p) ensures Gives(p, w) { ModerateGives(p, w); }
    } else {
      var w := TooPoor(p);
      assert !Gives(p, w);
    }
  }

  lemma ModerateGives(p: Policy, w: real)
    requires Allowed(p) && Moderate(p) && w >= Least(p)
    ensures Gives(p, w)
  {
    hide Amount, Gives;
    if p.rule == 2 && w != BASE_WEIGHT {
      if p.bestwzero { LinearGivesZero(p, w); } else { LinearGives(p, w); }
    } else {
      SimpleGives(p, w);
    }
  }

  lemma SimpleGives(p: Policy, w: real)
    requires Allowed(p) && Moderate(p) && w >= Least(p) && (p.rule != 2 || w == BASE_WEIGHT)
    ensures Gives(p, w)
  {
    if p.rule == 1 { assert Amount(p, w) == (if w > 100.0 then p.shares.base else p.shares.init) * 100.0; }
  }

  lemma LinearGivesZero(p: Policy, w: real)
    requires Allowed(p) && p.rule == 2 && w != BASE_WEIGHT && w >= 0.0 && p.shares.base == 0.0
    ensures Gives(p, w)
  {
    hide Amount;
    LinearAmount(p, w);
    Product(w, p.shares.curr);
  }

  lemma LinearGives(p: Policy, w: real)
    requires Allowed(p) && p.rule == 2 && w > BASE_WEIGHT && p.shares.curr + p.shares.base <= 1.0
    ensures Gives(p, w)
  {
    hide Amount;
    LinearAmount(p, w);
    LinearFits(w, p.shares.curr, p.shares.base);
  }

  lemma LinearAmount(p: Policy, w: real)
    requires p.rule == 2 && w != BASE_WEIGHT
    ensures Amount(p, w) == w * p.shares.curr + BASE_WEIGHT * p.shares.base
    ensures p.shares.base == 0.0 ==> Amount(p, w) == w * p.shares.curr
  {}

  lemma LinearFits(w: real, curr: real, base: real)
    requires w >= BASE_WEIGHT && 0.0 <= base && curr + base <= 1.0
    ensures w * curr + BASE_WEIGHT * base <= w
  {
    var left := 1.0 - curr;
    Rest(w, curr);
    Grows(BASE_WEIGHT, w, left);
  }

  lemma Rest(w: real, curr: real)
    ensures w * curr == w - w * (1.0 - curr)
  {}

  lemma Grows(a: real, b: real, x: real)
    requires a <= b && x >= 0.0
    ensures a * x <= b * x
  {
    assert b * x - a * x == (b - a) * x;
  }

  /** A clause that is asked for too much. */
  lemma TooPoor(p: Policy) returns (w: real)
    requires Allowed(p) && !Moderate(p)
    ensures w >= Least(p) && Amount(p, w) > w
  {
    if p.bestwzero {
      w := 0.0;
    } else {
      w := LittleAbove(p.shares.curr, p.shares.base);
      LinearAmount(p, w);
    }
  }

  /** A weight so little above the base weight that the shares are too much for it. */
  lemma LittleAbove(curr: real, base: real) returns (w: real)
    requires 0.0 <= curr <= 1.0 && 0.0 <= base <= 1.0 && curr + base > 1.0
    ensures w > BASE_WEIGHT && w * curr + BASE_WEIGHT * base > w
  {
    var left := 1.0 - curr;
    var s := base - left;
    w := 100.0 + 50.0 * s;
    Rest(w, curr);
    Product(s, left);
    Spread(s, left);
  }

  lemma Spread(s: real, left: real)
    ensures (100.0 + 50.0 * s) * left == 100.0 * left + 50.0 * (s * left)
  {}
}
