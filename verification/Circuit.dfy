/** And-inverter graphs with latches, their runs, and the cone of influence
    that the bounded model checker restricts them to. */
module Circuit {
  import opened Finite

  /** Literals are even for a variable and odd for its negation; variable 0 is false. */
  datatype Latch = Latch(lit: nat, next: nat, reset: nat)
  datatype And = And(lhs: nat, rhs0: nat, rhs1: nat)
  datatype Aiger = Aiger(maxvar: nat, inputs: seq<nat>, latches: seq<Latch>, ands: seq<And>, bad: nat)

  function Var(u: nat): nat { u / 2 }

  predicate IsInput(c: Aiger, v: nat) {
    exists i :: 0 <= i < |c.inputs| && c.inputs[i] == 2 * v
  }

  predicate IsLatch(c: Aiger, v: nat) {
    exists i :: 0 <= i < |c.latches| && c.latches[i].lit == 2 * v
  }

  predicate IsAnd(c: Aiger, v: nat) {
    exists i :: 0 <= i < |c.ands| && c.ands[i].lhs == 2 * v
  }

  ghost predicate Defined(c: Aiger, u: nat) {
    Var(u) <= c.maxvar && (Var(u) == 0 || IsInput(c, Var(u)) || IsLatch(c, Var(u)) || IsAnd(c, Var(u)))
  }

  /** Each variable is defined once, everything used is defined, and the gates
      can be ordered: an operand ranks below its gate. */
  ghost predicate WellFormed(c: Aiger, rank: seq<nat>) {
    && |rank| == c.maxvar + 1 && Defined(c, c.bad)
    && (forall i :: 0 <= i < |c.inputs| ==> Definable(c, c.inputs[i]))
    && (forall i :: 0 <= i < |c.latches| ==>
          var l := c.latches[i]; Definable(c, l.lit) && !IsInput(c, Var(l.lit)) && Defined(c, l.next))
    && (forall i, j :: 0 <= i < j < |c.latches| ==> c.latches[i].lit != c.latches[j].lit)
    && (forall i :: 0 <= i < |c.ands| ==> Gate(c, rank, c.ands[i]))
    && (forall i, j :: 0 <= i < j < |c.ands| ==> c.ands[i].lhs != c.ands[j].lhs)
  }

  ghost predicate Definable(c: Aiger, u: nat) {
    u % 2 == 0 && 0 < Var(u) <= c.maxvar
  }

  ghost predicate Gate(c: Aiger, rank: seq<nat>, a: And)
    requires |rank| == c.maxvar + 1
  {
    && Definable(c, a.lhs) && !IsInput(c, Var(a.lhs)) && !IsLatch(c, Var(a.lhs))
    && Defined(c, a.rhs0) && Defined(c, a.rhs1)
    && rank[Var(a.rhs0)] < rank[Var(a.lhs)] && rank[Var(a.rhs1)] < rank[Var(a.lhs)]
  }

  function FindLatch(c: Aiger, v: nat, n: nat): (i: int)
    requires n <= |c.latches|
    ensures -1 <= i < n && (i >= 0 ==> c.latches[i].lit == 2 * v)
    ensures i < 0 ==> forall j :: 0 <= j < n ==> c.latches[j].lit != 2 * v
  {
    if n == 0 then -1 else if c.latches[n - 1].lit == 2 * v then n - 1 else FindLatch(c, v, n - 1)
  }

  function FindAnd(c: Aiger, v: nat, n: nat): (i: int)
    requires n <= |c.ands|
    ensures -1 <= i < n && (i >= 0 ==> c.ands[i].lhs == 2 * v)
    ensures i < 0 ==> forall j :: 0 <= j < n ==> c.ands[j].lhs != 2 * v
  {
    if n == 0 then -1 else if c.ands[n - 1].lhs == 2 * v then n - 1 else FindAnd(c, v, n - 1)
  }

  // ----- what the circuit does ---------------------------------------------------

  /** The true variables at one point in time. */
  type Valuation = iset<int>

  ghost predicate True(w: Valuation, u: nat) {
    if u % 2 == 0 then Var(u) in w else Var(u) !in w
  }

  ghost predicate GateHolds(w: Valuation, a: And) {
    Var(a.lhs) in w <==> True(w, a.rhs0) && True(w, a.rhs1)
  }

  ghost predicate LatchStarts(w: Valuation, l: Latch) {
    (l.reset == 0 ==> Var(l.lit) !in w) && (l.reset == 1 ==> Var(l.lit) in w)
  }

  ghost predicate LatchSteps(v: Valuation, w: Valuation, l: Latch) {
    Var(l.lit) in w <==> True(v, l.next)
  }

  /** The constant, the gates and the latches of the set s behave at all times. */
  ghost predicate Run(c: Aiger, s: iset<int>, ws: seq<Valuation>) {
    && (forall t :: 0 <= t < |ws| ==> Settled(c, s, ws[t]))
    && (forall t :: 0 < t < |ws| ==> Steps(c, s, ws[t - 1], ws[t]))
    && (|ws| > 0 ==> Starts(c, s, ws[0]))
  }

  ghost predicate Settled(c: Aiger, s: iset<int>, w: Valuation) {
    && (0 in s ==> 0 !in w)
    && forall i :: 0 <= i < |c.ands| && Var(c.ands[i].lhs) in s ==> GateHolds(w, c.ands[i])
  }

  ghost predicate Steps(c: Aiger, s: iset<int>, v: Valuation, w: Valuation) {
    forall i :: 0 <= i < |c.latches| && Var(c.latches[i].lit) in s ==> LatchSteps(v, w, c.latches[i])
  }

  ghost predicate Starts(c: Aiger, s: iset<int>, w: Valuation) {
    forall i :: 0 <= i < |c.latches| && Var(c.latches[i].lit) in s ==> LatchStarts(w, c.latches[i])
  }

  predicate IsVar(c: Aiger, v: int) { 0 <= v <= c.maxvar }

  ghost function Everything(c: Aiger): iset<int> { iset v | IsVar(c, v) }

  /** Some run from a reset state makes the bad literal true after exactly k steps. */
  ghost predicate BadAt(c: Aiger, s: iset<int>, k: nat) {
    exists ws :: |ws| == k + 1 && Run(c, s, ws) && True(ws[k], c.bad)
  }

  // ----- the cone of influence ---------------------------------------------------

  ghost predicate Closed(c: Aiger, s: iset<int>) {
    && (forall i :: 0 <= i < |c.latches| && Var(c.latches[i].lit) in s ==> Var(c.latches[i].next) in s)
    && (forall i :: 0 <= i < |c.ands| && Var(c.ands[i].lhs) in s ==> Var(c.ands[i].rhs0) in s && Var(c.ands[i].rhs1) in s)
  }

  /** The variables that the bad literal depends on: the least set that holds its
      variable and, with a latch or gate, what feeds it. */
  ghost function Cone(c: Aiger): iset<int> {
    iset v | InCone(c, v)
  }

  ghost predicate InCone(c: Aiger, v: int) {
    forall s :: Closed(c, s) && Var(c.bad) in s ==> v in s
  }

  lemma ConeClosed(c: Aiger)
    ensures Closed(c, Cone(c)) && Var(c.bad) in Cone(c)
  {
    var cone := Cone(c);
    forall i | 0 <= i < |c.latches| && Var(c.latches[i].lit) in cone ensures Var(c.latches[i].next) in cone {
      forall s | Closed(c, s) && Var(c.bad) in s ensures Var(c.latches[i].next) in s { assert Var(c.latches[i].lit) in s; }
    }
    forall i | 0 <= i < |c.ands| && Var(c.ands[i].lhs) in cone
      ensures Var(c.ands[i].rhs0) in cone && Var(c.ands[i].rhs1) in cone
    {
      forall s | Closed(c, s) && Var(c.bad) in s ensures Var(c.ands[i].rhs0) in s && Var(c.ands[i].rhs1) in s {
        assert Var(c.ands[i].lhs) in s;
      }
    }
  }

  /** Everything in the cone is the constant, an input, a latch or a gate. */
  lemma ConeDefined(c: Aiger, rank: seq<nat>, v: int)
    requires WellFormed(c, rank) && v in Cone(c)
    ensures 0 <= v <= c.maxvar && Defined(c, 2 * v)
  {
    var s := iset x: int | IsVar(c, x) && Defined(c, 2 * x);
    forall i | 0 <= i < |c.ands| ensures Var(c.ands[i].rhs0) in s && Var(c.ands[i].rhs1) in s { assert Gate(c, rank, c.ands[i]); }
    assert Closed(c, s) && Var(c.bad) in s;
    assert InCone(c, v);
  }

  // ----- a run of the cone extends to the whole circuit -----------------------------

  /** The value of a variable, given those of inputs and latches. */
  ghost predicate Value(c: Aiger, rank: seq<nat>, leaves: Valuation, v: nat)
    requires WellFormed(c, rank) && v <= c.maxvar
    decreases rank[v]
  {
    var i := FindAnd(c, v, |c.ands|);
    if i < 0 then v in leaves && v != 0
    else
      var a := c.ands[i];
      assert Gate(c, rank, a);
      (Value(c, rank, leaves, Var(a.rhs0)) == (a.rhs0 % 2 == 0)) && (Value(c, rank, leaves, Var(a.rhs1)) == (a.rhs1 % 2 == 0))
  }

  ghost function Settle(c: Aiger, rank: seq<nat>, leaves: Valuation): Valuation
    requires WellFormed(c, rank)
  {
    iset v: int | 0 <= v <= c.maxvar && Value(c, rank, leaves, v)
  }

  /** Outside s, latches follow the circuit and inputs are false. */
  ghost function Leaves(c: Aiger, rank: seq<nat>, s: iset<int>, ws: seq<Valuation>, t: nat): Valuation
    requires WellFormed(c, rank) && t < |ws|
    decreases t, 0
  {
    iset v: int | 0 <= v <= c.maxvar &&
      if v in s then v in ws[t]
      else
        var i := FindLatch(c, v, |c.latches|);
        i >= 0 && if t == 0 then c.latches[i].reset == 1 else True(Extended(c, rank, s, ws, t - 1), c.latches[i].next)
  }

  ghost function Extended(c: Aiger, rank: seq<nat>, s: iset<int>, ws: seq<Valuation>, t: nat): Valuation
    requires WellFormed(c, rank) && t < |ws|
    decreases t, 1
  {
    Settle(c, rank, Leaves(c, rank, s, ws, t))
  }

  lemma FindAndUnique(c: Aiger, rank: seq<nat>, i: nat)
    requires WellFormed(c, rank) && i < |c.ands|
    ensures FindAnd(c, Var(c.ands[i].lhs), |c.ands|) == i && Gate(c, rank, c.ands[i])
  {
    assert Gate(c, rank, c.ands[i]);
    var j := FindAnd(c, Var(c.ands[i].lhs), |c.ands|);
    assert c.ands[i].lhs == 2 * Var(c.ands[i].lhs);
    assert j >= 0 && c.ands[j].lhs == c.ands[i].lhs;
  }

  lemma FindLatchUnique(c: Aiger, rank: seq<nat>, i: nat)
    requires WellFormed(c, rank) && i < |c.latches|
    ensures FindLatch(c, Var(c.latches[i].lit), |c.latches|) == i && FindAnd(c, Var(c.latches[i].lit), |c.ands|) < 0
    ensures !IsInput(c, Var(c.latches[i].lit)) && Defined(c, c.latches[i].next)
  {
    var v := Var(c.latches[i].lit);
    var j, k := FindLatch(c, v, |c.latches|), FindAnd(c, v, |c.ands|);
    assert c.latches[i].lit == 2 * v;
    assert j >= 0 && c.latches[j].lit == c.latches[i].lit;
    assert IsLatch(c, v);
    forall a | 0 <= a < |c.ands| ensures c.ands[a].lhs != 2 * v { assert Gate(c, rank, c.ands[a]); }
  }

  lemma SettleHolds(c: Aiger, rank: seq<nat>, leaves: Valuation)
    requires WellFormed(c, rank)
    ensures Settled(c, Everything(c), Settle(c, rank, leaves))
  {
    var w := Settle(c, rank, leaves);
    forall i | 0 <= i < |c.ands| ensures GateHolds(w, c.ands[i]) {
      FindAndUnique(c, rank, i);
      assert Gate(c, rank, c.ands[i]);
    }
    forall i | 0 <= i < |c.ands| ensures c.ands[i].lhs != 2 * 0 { assert Gate(c, rank, c.ands[i]); }
    assert 0 !in w;
  }

  /** Inside a closed set the values are the given ones. */
  lemma {:induction false} SettleAgrees(c: Aiger, rank: seq<nat>, s: iset<int>, w: Valuation, leaves: Valuation, v: nat)
    requires WellFormed(c, rank) && Closed(c, s) && Settled(c, s, w) && v in s && v <= c.maxvar
    requires forall x: int :: x in s && 0 <= x <= c.maxvar && FindAnd(c, x, |c.ands|) < 0 ==> (x in leaves <==> x in w)
    ensures Value(c, rank, leaves, v) <==> v in w
    decreases rank[v]
  {
    var i := FindAnd(c, v, |c.ands|);
    if i >= 0 {
      var a := c.ands[i];
      assert Gate(c, rank, a) && Var(a.lhs) == v && GateHolds(w, a);
      SettleAgrees(c, rank, s, w, leaves, Var(a.rhs0));
      SettleAgrees(c, rank, s, w, leaves, Var(a.rhs1));
    }
  }

  /** Two settled valuations that agree on the inputs and latches of a closed set agree on all of it. */
  lemma LeavesDecide(c: Aiger, rank: seq<nat>, s: iset<int>, v: Valuation, w: Valuation, u: nat)
    requires WellFormed(c, rank) && Closed(c, s) && Settled(c, s, v) && Settled(c, s, w) && u in s && u <= c.maxvar
    requires forall x: int :: x in s && 0 <= x <= c.maxvar && FindAnd(c, x, |c.ands|) < 0 ==> (x in v <==> x in w)
    ensures u in v <==> u in w
  {
    SettleAgrees(c, rank, s, v, v, u);
    SettleAgrees(c, rank, s, w, v, u);
  }

  lemma ExtendedAgrees(c: Aiger, rank: seq<nat>, s: iset<int>, ws: seq<Valuation>, t: nat, u: nat)
    requires WellFormed(c, rank) && Closed(c, s) && t < |ws| && Settled(c, s, ws[t]) && Var(u) in s && Var(u) <= c.maxvar
    ensures Var(u) in Extended(c, rank, s, ws, t) <==> Var(u) in ws[t]
    ensures True(Extended(c, rank, s, ws, t), u) <==> True(ws[t], u)
  {
    SettleAgrees(c, rank, s, ws[t], Leaves(c, rank, s, ws, t), Var(u));
  }

  lemma ExtendedLatch(c: Aiger, rank: seq<nat>, s: iset<int>, ws: seq<Valuation>, t: nat, i: nat)
    requires WellFormed(c, rank) && Closed(c, s) && Run(c, s, ws) && t < |ws| && i < |c.latches|
    ensures t == 0 ==> LatchStarts(Extended(c, rank, s, ws, t), c.latches[i])
    ensures t > 0 ==> LatchSteps(Extended(c, rank, s, ws, t - 1), Extended(c, rank, s, ws, t), c.latches[i])
  {
    var l := c.latches[i];
    FindLatchUnique(c, rank, i);
    if Var(l.lit) in s {
      ExtendedAgrees(c, rank, s, ws, t, l.lit);
      if t > 0 {
        ExtendedAgrees(c, rank, s, ws, t - 1, l.next);
        assert Steps(c, s, ws[t - 1], ws[t]);
      }
    }
  }

  lemma ExtendedRun(c: Aiger, rank: seq<nat>, s: iset<int>, ws: seq<Valuation>)
    requires WellFormed(c, rank) && Closed(c, s) && Run(c, s, ws)
    ensures Run(c, Everything(c), seq(|ws|, t requires 0 <= t < |ws| => Extended(c, rank, s, ws, t)))
  {
    var xs := seq(|ws|, t requires 0 <= t < |ws| => Extended(c, rank, s, ws, t));
    forall t | 0 <= t < |ws| ensures Settled(c, Everything(c), xs[t]) {
      SettleHolds(c, rank, Leaves(c, rank, s, ws, t));
    }
    forall t | 0 < t < |ws| ensures Steps(c, Everything(c), xs[t - 1], xs[t]) {
      forall i | 0 <= i < |c.latches| ensures LatchSteps(xs[t - 1], xs[t], c.latches[i]) {
        ExtendedLatch(c, rank, s, ws, t, i);
      }
    }
    forall i | 0 <= i < |c.latches| && |ws| > 0 ensures LatchStarts(xs[0], c.latches[i]) {
      ExtendedLatch(c, rank, s, ws, 0, i);
    }
    
  }

  /** Reaching the bad literal within a closed set is reaching it in the circuit. */
  lemma ClosedSuffices(c: Aiger, rank: seq<nat>, s: iset<int>, k: nat)
    requires WellFormed(c, rank) && Closed(c, s) && Var(c.bad) in s
    ensures BadAt(c, s, k) <==> BadAt(c, Everything(c), k)
  {
    if BadAt(c, Everything(c), k) {
      var ws :| |ws| == k + 1 && Run(c, Everything(c), ws) && True(ws[k], c.bad);
      Restricted(c, rank, s, ws);
    }
    if BadAt(c, s, k) {
      var ws :| |ws| == k + 1 && Run(c, s, ws) && True(ws[k], c.bad);
      ExtendedRun(c, rank, s, ws);
      ExtendedAgrees(c, rank, s, ws, k, c.bad);
    }
  }

  lemma Restricted(c: Aiger, rank: seq<nat>, s: iset<int>, ws: seq<Valuation>)
    requires WellFormed(c, rank) && Run(c, Everything(c), ws)
    ensures Run(c, s, ws)
  {
    forall i | 0 <= i < |c.ands| ensures Var(c.ands[i].lhs) in Everything(c) { assert Gate(c, rank, c.ands[i]); }
    forall t | 0 < t < |ws| ensures Steps(c, s, ws[t - 1], ws[t]) {
      assert Steps(c, Everything(c), ws[t - 1], ws[t]);
    }
  }

  // ----- collecting the cone --------------------------------------------------------

  /** The marked variables in the order of their marks; the stack holds a literal of each but the first. */
  ghost predicate Marks(c: Aiger, coi: seq<int>, stack: seq<nat>, top: nat, order: seq<nat>) {
    && |coi| == |stack| == c.maxvar + 1 && |order| == top
    && (forall j :: 0 <= j < top ==> order[j] <= c.maxvar && coi[order[j]] == j + 1 && order[j] in Cone(c))
    && (forall j :: 1 <= j < top && j < |stack| ==> Var(stack[j]) == order[j])
    && (forall v :: 0 <= v < |coi| && coi[v] != 0 ==> 1 <= coi[v] <= top && order[coi[v] - 1] == v)
  }

  /** What feeds v is marked. */
  ghost predicate Fed(c: Aiger, coi: seq<int>, v: nat)
    requires |coi| == c.maxvar + 1
  {
    && (forall i :: 0 <= i < |c.latches| && Var(c.latches[i].lit) == v ==> Marked(coi, c.latches[i].next))
    && (forall i :: 0 <= i < |c.ands| && Var(c.ands[i].lhs) == v ==> Marked(coi, c.ands[i].rhs0) && Marked(coi, c.ands[i].rhs1))
  }

  ghost predicate Marked(coi: seq<int>, u: nat) {
    Var(u) < |coi| && coi[Var(u)] != 0
  }

  /** The stack never overflows: each variable is pushed at most once. */
  lemma MarksFit(c: Aiger, coi: seq<int>, stack: seq<nat>, top: nat, order: seq<nat>, v: nat)
    requires Marks(c, coi, stack, top, order) && v <= c.maxvar && coi[v] == 0
    ensures top < c.maxvar + 1
  {
    forall i, j | 0 <= i < j < top ensures order[i] != order[j] && order[i] != v && order[j] != v {
      assert coi[order[i]] == i + 1 && coi[order[j]] == j + 1;
    }
    assert top == 1 ==> order[0] != v by { if top == 1 { assert coi[order[0]] == 1; } }
    Pigeonhole(order + [v], c.maxvar + 1);
  }

  /** Marks the variable of a literal and pushes it, unless it is marked. */
  method Mark(c: Aiger, coi: array<int>, stack: array<nat>, top: nat, lit: nat, ghost order: seq<nat>)
    returns (newtop: nat, ghost neworder: seq<nat>)
    requires Marks(c, coi[..], stack[..], top, order) && Var(lit) <= c.maxvar && Var(lit) in Cone(c)
    modifies coi, stack
    ensures Marks(c, coi[..], stack[..], newtop, neworder) && |neworder| == newtop && order <= neworder
    ensures Marked(coi[..], lit) && forall u :: old(Marked(coi[..], u)) ==> Marked(coi[..], u)
  {
    hide Cone;
    newtop, neworder := top, order;
    var idx := Var(lit);
    if coi[idx] == 0 {
      MarksFit(c, coi[..], stack[..], top, order, idx);
      stack[newtop] := lit;
      newtop := newtop + 1;
      coi[idx] := newtop;
      neworder := order + [idx];
    }
  }

  /** Marks what feeds the variable: nothing for an input or the constant. */
  method MarkFanin(c: Aiger, ghost rank: seq<nat>, coi: array<int>, stack: array<nat>, top: nat, v: nat, ghost order: seq<nat>)
    returns (newtop: nat, ghost neworder: seq<nat>)
    requires WellFormed(c, rank) && Marks(c, coi[..], stack[..], top, order) && |order| == top && v in Cone(c)
    modifies coi, stack
    ensures Marks(c, coi[..], stack[..], newtop, neworder) && |neworder| == newtop && order <= neworder && Fed(c, coi[..], v)
    ensures forall u :: old(Marked(coi[..], u)) ==> Marked(coi[..], u)
  {
    hide Cone, Marks, WellFormed, FindLatch, FindAnd, IsInput;
    newtop, neworder := top, order;
    var l, a := FindLatch(c, v, |c.latches|), FindAnd(c, v, |c.ands|);
    OneKind(c, rank, v);
    if IsInput(c, v) {
    } else if l >= 0 {
      newtop, neworder := Mark(c, coi, stack, newtop, c.latches[l].next, neworder);
    } else if a >= 0 {
      newtop, neworder := Mark(c, coi, stack, newtop, c.ands[a].rhs0, neworder);
      newtop, neworder := Mark(c, coi, stack, newtop, c.ands[a].rhs1, neworder);
    }
  }

  /** A variable of the cone is an input or the constant, or one latch, or one gate. */
  lemma OneKind(c: Aiger, rank: seq<nat>, v: nat)
    requires WellFormed(c, rank) && v in Cone(c)
    ensures var l, a := FindLatch(c, v, |c.latches|), FindAnd(c, v, |c.ands|);
            && (IsInput(c, v) ==> l < 0 && a < 0) && (l >= 0 ==> a < 0)
            && (forall i :: 0 <= i < |c.latches| && Var(c.latches[i].lit) == v ==> i == l)
            && (forall i :: 0 <= i < |c.ands| && Var(c.ands[i].lhs) == v ==> i == a)
            && (l >= 0 ==> InConeAt(c, c.latches[l].next))
            && (a >= 0 ==> InConeAt(c, c.ands[a].rhs0) && InConeAt(c, c.ands[a].rhs1))
  {
    hide Cone, WellFormed, FindLatch, FindAnd;
    ConeClosed(c);
    forall i | 0 <= i < |c.latches| && Var(c.latches[i].lit) == v ensures i == FindLatch(c, v, |c.latches|) && !IsInput(c, v) {
      FindLatchUnique(c, rank, i);
    }
    forall i | 0 <= i < |c.ands| && Var(c.ands[i].lhs) == v ensures i == FindAnd(c, v, |c.ands|) && !IsInput(c, v) {
      FindAndUnique(c, rank, i);
    }
    var l, a := FindLatch(c, v, |c.latches|), FindAnd(c, v, |c.ands|);
    if l >= 0 { FindLatchUnique(c, rank, l); }
    if a >= 0 { FindAndUnique(c, rank, a); }
  }

  ghost predicate InConeAt(c: Aiger, u: nat) {
    Var(u) in Cone(c) && Var(u) <= c.maxvar
  }

  /** Once everything marked is fed, the marks are the cone. */
  lemma ConeReached(c: Aiger, rank: seq<nat>, coi: seq<int>, stack: seq<nat>, top: nat, order: seq<nat>)
    requires WellFormed(c, rank) && Visited(c, coi, stack, top, top, order)
    ensures |coi| == c.maxvar + 1 && forall v :: 0 <= v <= c.maxvar ==> (coi[v] != 0 <==> v in Cone(c))
  {
    hide Cone;
    var s := iset v: int | 0 <= v < |coi| && coi[v] != 0;
    forall i | 0 <= i < |c.latches| && Var(c.latches[i].lit) in s ensures Var(c.latches[i].next) in s {
      assert Fed(c, coi, order[coi[Var(c.latches[i].lit)] - 1]);
    }
    forall i | 0 <= i < |c.ands| && Var(c.ands[i].lhs) in s ensures Var(c.ands[i].rhs0) in s && Var(c.ands[i].rhs1) in s {
      assert Fed(c, coi, order[coi[Var(c.ands[i].lhs)] - 1]);
    }
    assert Closed(c, s);
    forall v: int | v in Cone(c) ensures v in s { ConeLeast(c, s, v); }
    forall v | 0 <= v <= c.maxvar && coi[v] != 0 ensures v in Cone(c) { assert order[coi[v] - 1] in Cone(c); }
  }

  lemma ConeLeast(c: Aiger, s: iset<int>, v: int)
    requires Closed(c, s) && Var(c.bad) in s && v in Cone(c)
    ensures v in s
  {}

  lemma FedKept(c: Aiger, coi: seq<int>, coi': seq<int>, order: seq<nat>, n: nat)
    requires |coi| == |coi'| == c.maxvar + 1 && n <= |order|
    requires forall u :: Marked(coi, u) ==> Marked(coi', u)
    requires forall j :: 0 <= j < n ==> Fed(c, coi, order[j])
    ensures forall j :: 0 <= j < n ==> Fed(c, coi', order[j])
  {
    forall j | 0 <= j < n ensures Fed(c, coi', order[j]) { assert Fed(c, coi, order[j]); }
  }

  /** The first n marked variables are fed. */
  ghost predicate Visited(c: Aiger, coi: seq<int>, stack: seq<nat>, top: nat, n: nat, order: seq<nat>) {
    && Marks(c, coi, stack, top, order) && Marked(coi, c.bad) && n <= top
    && forall j :: 0 <= j < n ==> Fed(c, coi, order[j])
  }

  /** The next marked variable is visited. */
  method Visit(c: Aiger, ghost rank: seq<nat>, coi: array<int>, stack: array<nat>, top: nat, v: nat, ghost n: nat, ghost order: seq<nat>)
    returns (newtop: nat, ghost neworder: seq<nat>)
    requires WellFormed(c, rank) && Visited(c, coi[..], stack[..], top, n, order) && n < top && v == order[n]
    modifies coi, stack
    ensures Visited(c, coi[..], stack[..], newtop, n + 1, neworder)
  {
    hide Cone, Marks, WellFormed, Marked, Fed;
    ghost var before := coi[..];
    OrderAt(c, coi[..], stack[..], top, order, n);
    newtop, neworder := MarkFanin(c, rank, coi, stack, top, v, order);
    FedKept(c, before, coi[..], order, n);
    OrderAt(c, coi[..], stack[..], newtop, neworder, n);
    forall j | 0 <= j < n + 1 ensures Fed(c, coi[..], neworder[j]) { assert j < n ==> neworder[j] == order[j]; }
  }

  lemma VisitStart(c: Aiger, rank: seq<nat>, coi: seq<int>, stack: seq<nat>)
    requires WellFormed(c, rank) && |coi| == |stack| == c.maxvar + 1
    requires forall v :: 0 <= v < |coi| ==> coi[v] == if v == Var(c.bad) then 1 else 0
    ensures Visited(c, coi, stack, 1, 0, [Var(c.bad)])
  {
    hide Cone;
    ConeClosed(c);
  }

  /** Marks exactly the cone of influence of the bad literal. */
  method TravCoi(c: Aiger, ghost rank: seq<nat>) returns (coi: array<int>)
    requires WellFormed(c, rank)
    ensures coi.Length == c.maxvar + 1 && forall v :: 0 <= v <= c.maxvar ==> (coi[v] != 0 <==> v in Cone(c))
  {
    coi := new int[c.maxvar + 1](_ => 0);
    var stack := new nat[c.maxvar + 1](_ => 0);
    var lit := c.bad;
    coi[Var(lit)] := 1;
    VisitStart(c, rank, coi[..], stack[..]);
    hide Cone, Visited, WellFormed;
    var top: nat, next: nat := 1, 1;
    ghost var order := [Var(lit)];
    while true
      invariant 1 <= next && Visited(c, coi[..], stack[..], top, next - 1, order)
      invariant |order| == top && 1 <= next <= top <= c.maxvar + 1 && Var(lit) == order[next - 1]
      decreases c.maxvar + 1 - next
    {
      top, order := Visit(c, rank, coi, stack, top, Var(lit), next - 1, order);
      VisitedAt(c, coi[..], stack[..], top, next, order);
      if next == top { break; }
      lit := stack[next];
      next := next + 1;
    }
    ConeReached(c, rank, coi[..], stack[..], top, order);
  }

  lemma VisitedAt(c: Aiger, coi: seq<int>, stack: seq<nat>, top: nat, n: nat, order: seq<nat>)
    requires Visited(c, coi, stack, top, n, order)
    ensures |order| == top && n <= top && (top > 0 ==> top <= |stack| == c.maxvar + 1) && (0 < n < top ==> Var(stack[n]) == order[n])
  {
    hide Cone, Fed;
    if n < top { OrderAt(c, coi, stack, top, order, n); } else if n > 0 { OrderAt(c, coi, stack, top, order, n - 1); }
  }

  lemma OrderAt(c: Aiger, coi: seq<int>, stack: seq<nat>, top: nat, order: seq<nat>, j: nat)
    requires Marks(c, coi, stack, top, order) && j < top
    ensures |order| == top <= |stack| == |coi| == c.maxvar + 1 && order[j] in Cone(c) && (j > 0 ==> Var(stack[j]) == order[j])
  {
    hide Cone;
    forall i, k | 0 <= i < k < top ensures order[i] != order[k] { assert coi[order[i]] == i + 1 && coi[order[k]] == k + 1; }
    Pigeonhole(order, c.maxvar + 1);
  }
}
