/** The executable specification of the backbone: enumerate all assignments and
    keep the variables that never changed. A board whose variables are all
    decided holds exactly these literals. */
module BruteForce {
  import opened Cnf
  import opened Board
  import opened Finite

  const MAX_VARS := 22

  /** Bit v - 1 of a number is the value of variable v. */
  function Bits(a: nat, n: nat): (r: seq<bool>)
    ensures |r| == n
  {
    if n == 0 then [] else [a % 2 == 1] + Bits(a / 2, n - 1)
  }

  function Number(bits: seq<bool>): (r: nat)
    ensures r < Power2(|bits|)
  {
    if bits == [] then 0 else (if bits[0] then 1 else 0) + 2 * Number(bits[1..])
  }

  lemma {:induction false} BitsOfNumber(bits: seq<bool>)
    ensures Bits(Number(bits), |bits|) == bits
  {
    if bits != [] { BitsOfNumber(bits[1..]); }
  }

  // ----- clauses as masks --------------------------------------------------------

  /** A clause as one mask of positive and one of negative variables. */
  datatype Mask = Mask(pos: seq<bool>, neg: seq<bool>)

  predicate InRange(c: Clause, n: nat) {
    forall j :: 0 <= j < |c| ==> 1 <= Abs(c[j]) <= n
  }

  ghost predicate MaskOf(c: Clause, n: nat, m: Mask) {
    && |m.pos| == |m.neg| == n
    && forall i :: 0 <= i < n ==> (m.pos[i] <==> i + 1 in c) && (m.neg[i] <==> -(i + 1) in c)
  }

  method MakeMask(c: Clause, n: nat) returns (m: Mask)
    requires InRange(c, n)
    ensures MaskOf(c, n, m)
  {
    var pos, neg := seq(n, _ => false), seq(n, _ => false);
    for j := 0 to |c|
      invariant MaskOf(c[..j], n, Mask(pos, neg))
    {
      var lit := c[j];
      if lit > 0 { pos := pos[lit - 1 := true]; } else { neg := neg[-lit - 1 := true]; }
      assert c[..j + 1] == c[..j] + [lit];
    }
    assert c[..|c|] == c;
    m := Mask(pos, neg);
  }

  /** One of the masks meets the assignment. */
  predicate Meets(bits: seq<bool>, m: Mask)
    requires |bits| == |m.pos| == |m.neg|
  {
    exists i :: 0 <= i < |bits| && ((bits[i] && m.pos[i]) || (!bits[i] && m.neg[i]))
  }

  ghost function Assigned(bits: seq<bool>): Assignment {
    iset v: int | IsSet(bits, v)
  }

  ghost predicate IsSet(bits: seq<bool>, v: int) {
    1 <= v <= |bits| && bits[v - 1]
  }

  lemma MeetsSatisfies(c: Clause, n: nat, m: Mask, bits: seq<bool>)
    requires InRange(c, n) && MaskOf(c, n, m) && |bits| == n
    ensures Meets(bits, m) <==> Satisfies(Assigned(bits), c)
  {
    var a := Assigned(bits);
    if Meets(bits, m) {
      var i :| 0 <= i < n && ((bits[i] && m.pos[i]) || (!bits[i] && m.neg[i]));
      var l := if bits[i] then i + 1 else -(i + 1);
      assert IsSet(bits, i + 1) <==> bits[i];
      assert l in c && Holds(a, l);
    }
    if Satisfies(a, c) {
      var l :| l in c && Holds(a, l);
      var j :| 0 <= j < |c| && c[j] == l;
      var i := Abs(l) - 1;
      assert IsSet(bits, i + 1) <==> bits[i];
      assert if l > 0 then m.pos[i] && bits[i] else m.neg[i] && !bits[i];
    }
  }

  // ----- which literals the models share ----------------------------------------------

  ghost predicate FormulaInRange(f: Formula, n: nat) {
    forall i :: 0 <= i < |f| ==> InRange(f[i], n)
  }

  /** Number a is a model. */
  ghost predicate IsModel(f: Formula, n: nat, a: nat) {
    Models(Assigned(Bits(a, n)), f)
  }

  /** Every assignment looks like one of the numbers below 2^n. */
  lemma SomeNumber(f: Formula, n: nat, a: Assignment) returns (b: nat)
    requires FormulaInRange(f, n)
    ensures b < Power2(n) && (IsModel(f, n, b) <==> Models(a, f))
    ensures forall v :: 1 <= v <= n ==> (Bits(b, n)[v - 1] <==> v in a)
  {
    var bits := seq(n, i requires 0 <= i < n => i + 1 in a);
    b := Number(bits);
    BitsOfNumber(bits);
    forall i | 0 <= i < |f| ensures Satisfies(Assigned(bits), f[i]) <==> Satisfies(a, f[i]) {
      SameSatisfied(f[i], n, bits, a);
    }
  }

  lemma SameSatisfied(c: Clause, n: nat, bits: seq<bool>, a: Assignment)
    requires InRange(c, n) && |bits| == n && forall i :: 0 <= i < n ==> (bits[i] <==> i + 1 in a)
    ensures Satisfies(Assigned(bits), c) <==> Satisfies(a, c)
  {
    forall l | l in c ensures Holds(Assigned(bits), l) <==> Holds(a, l) {
      var j :| 0 <= j < |c| && c[j] == l;
      assert IsSet(bits, Abs(l)) <==> bits[Abs(l) - 1];
      assert bits[Abs(l) - 1] <==> Abs(l) - 1 + 1 in a;
    }
  }

  /** The variables that have the given value in all models among the numbers below a. */
  ghost predicate Always(f: Formula, n: nat, a: nat, value: bool, i: nat)
    requires i < n
  {
    forall b :: 0 <= b < a && IsModel(f, n, b) ==> Bits(b, n)[i] == value
  }

  ghost predicate Masks(f: Formula, n: nat, a: nat, alwaysTrue: seq<bool>, alwaysFalse: seq<bool>) {
    && |alwaysTrue| == |alwaysFalse| == n
    && forall i :: 0 <= i < n ==> (alwaysTrue[i] <==> Always(f, n, a, true, i)) && (alwaysFalse[i] <==> Always(f, n, a, false, i))
  }

  lemma AlwaysBackbone(f: Formula, n: nat, i: nat)
    requires FormulaInRange(f, n) && i < n
    ensures Always(f, n, Power2(n), true, i) <==> Backbone(f, i + 1)
    ensures Always(f, n, Power2(n), false, i) <==> Backbone(f, -(i + 1))
  {
    forall a | Models(a, f) && Always(f, n, Power2(n), true, i) ensures Holds(a, i + 1) {
      var b := SomeNumber(f, n, a);
      assert Bits(b, n)[i + 1 - 1] <==> i + 1 in a;
    }
    forall a | Models(a, f) && Always(f, n, Power2(n), false, i) ensures Holds(a, -(i + 1)) {
      var b := SomeNumber(f, n, a);
      assert Bits(b, n)[i + 1 - 1] <==> i + 1 in a;
    }
    forall b | 0 <= b < Power2(n) && IsModel(f, n, b)
      ensures Backbone(f, i + 1) ==> Bits(b, n)[i] == true
      ensures Backbone(f, -(i + 1)) ==> Bits(b, n)[i] == false
    {
      var a := Assigned(Bits(b, n));
      assert IsSet(Bits(b, n), i + 1) <==> Bits(b, n)[i];
      assert Backbone(f, i + 1) ==> Holds(a, i + 1);
      assert Backbone(f, -(i + 1)) ==> Holds(a, -(i + 1));
    }
  }

  /** The backbone literals of the first n variables, in order. */
  ghost function BackboneList(f: Formula, n: nat): seq<int> {
    if n == 0 then [] else
      BackboneList(f, n - 1) + if Backbone(f, n) then [n] else if Backbone(f, -(n as int)) then [-(n as int)] else []
  }

  // ----- the enumeration ----------------------------------------------------------------

  datatype Answer = TooManyVariables | Backbones(isSat: bool, literals: seq<int>)

  lemma MasksStart(f: Formula, n: nat)
    ensures Masks(f, n, 0, seq(n, _ => true), seq(n, _ => true))
  {}

  lemma AlwaysNext(f: Formula, n: nat, a: nat, value: bool, i: nat)
    requires i < n
    ensures Always(f, n, a + 1, value, i) <==> Always(f, n, a, value, i) && (IsModel(f, n, a) ==> Bits(a, n)[i] == value)
  {}

  /** One more assignment, which may be a model. */
  lemma MasksNext(f: Formula, n: nat, a: nat, t: seq<bool>, g: seq<bool>)
    requires Masks(f, n, a, t, g)
    ensures IsModel(f, n, a) ==> Masks(f, n, a + 1, And(t, Bits(a, n)), AndNot(g, Bits(a, n)))
    ensures !IsModel(f, n, a) ==> Masks(f, n, a + 1, t, g)
  {
    hide IsModel, Bits, Always;
    forall i | 0 <= i < n
      ensures Always(f, n, a + 1, true, i) <==> t[i] && (IsModel(f, n, a) ==> Bits(a, n)[i])
      ensures Always(f, n, a + 1, false, i) <==> g[i] && (IsModel(f, n, a) ==> !Bits(a, n)[i])
    {
      AlwaysNext(f, n, a, true, i);
      AlwaysNext(f, n, a, false, i);
    }
  }

  function And(s: seq<bool>, t: seq<bool>): (r: seq<bool>)
    requires |s| == |t|
    ensures |r| == |s| && forall i :: 0 <= i < |s| ==> (r[i] <==> s[i] && t[i])
  {
    seq(|s|, i requires 0 <= i < |s| => s[i] && t[i])
  }

  function AndNot(s: seq<bool>, t: seq<bool>): (r: seq<bool>)
    requires |s| == |t|
    ensures |r| == |s| && forall i :: 0 <= i < |s| ==> (r[i] <==> s[i] && !t[i])
  {
    seq(|s|, i requires 0 <= i < |s| => s[i] && !t[i])
  }

  predicate Zero(s: seq<bool>) {
    forall i :: 0 <= i < |s| ==> !s[i]
  }

  /** When nothing is left, further models change nothing: the early exit is right. */
  lemma NothingLeft(f: Formula, n: nat, a: nat, b: nat, t: seq<bool>, g: seq<bool>)
    requires Masks(f, n, a, t, g) && Zero(t) && Zero(g) && a <= b
    ensures Masks(f, n, b, t, g)
  {
    forall i | 0 <= i < n ensures !Always(f, n, b, true, i) && !Always(f, n, b, false, i) {
      assert !t[i] && !g[i];
      assert !Always(f, n, a, true, i) && !Always(f, n, a, false, i);
    }
  }

  /** Satisfiability, and the literals that are true in every model. */
  method BruteForceBackbone(nbVars: nat, clauses: Formula) returns (r: Answer)
    requires FormulaInRange(clauses, nbVars)
    ensures r.TooManyVariables? <==> nbVars > MAX_VARS
    ensures r.Backbones? ==>
              && (r.isSat <==> !Unsatisfiable(clauses))
              && r.literals == if r.isSat then BackboneList(clauses, nbVars) else []
  {
    hide Masks, IsModel, Bits, Meets, MasksOf, FormulaInRange, Zero, And, AndNot, Power2, BackboneList, Unsatisfiable;
    if nbVars > MAX_VARS { return TooManyVariables; }
    ghost var f, n := clauses, nbVars;
    var masks := MakeMasks(clauses, nbVars);
    var alwaysTrue, alwaysFalse := seq(nbVars, _ => true), seq(nbVars, _ => true);
    MasksStart(f, n);
    var isSat := false;
    var a := 0;
    var total := Power2(nbVars);
    while a < total
      invariant 0 <= a <= total == Power2(n) && |alwaysTrue| == |alwaysFalse| == n
      invariant Masks(f, n, a, alwaysTrue, alwaysFalse)
      invariant isSat ==> exists b :: 0 <= b < total && IsModel(f, n, b)
      invariant !isSat ==> forall b :: 0 <= b < a ==> !IsModel(f, n, b)
    {
      var bits := Bits(a, nbVars);
      AllMeet(f, n, masks, bits, a);
      MasksNext(f, n, a, alwaysTrue, alwaysFalse);
      if forall k :: 0 <= k < |masks| ==> Meets(bits, masks[k]) {
        isSat := true;
        alwaysTrue, alwaysFalse := And(alwaysTrue, bits), AndNot(alwaysFalse, bits);
        if Zero(alwaysTrue) && Zero(alwaysFalse) {
          NothingLeft(f, n, a + 1, total, alwaysTrue, alwaysFalse);
          break;
        }
      }
      a := a + 1;
    }
    Decided(f, n, isSat);
    if !isSat { return Backbones(false, []); }
    var literals := Collect(f, nbVars, alwaysTrue, alwaysFalse);
    r := Backbones(true, literals);
  }

  ghost predicate MasksOf(f: Formula, n: nat, masks: seq<Mask>) {
    |masks| == |f| && forall k :: 0 <= k < |f| ==> MaskOf(f[k], n, masks[k])
  }

  method MakeMasks(f: Formula, n: nat) returns (masks: seq<Mask>)
    requires FormulaInRange(f, n)
    ensures MasksOf(f, n, masks)
  {
    masks := [];
    for k := 0 to |f|
      invariant |masks| == k && forall j :: 0 <= j < k ==> MaskOf(f[j], n, masks[j])
    {
      var m := MakeMask(f[k], n);
      masks := masks + [m];
    }
  }

  lemma AllMeet(f: Formula, n: nat, masks: seq<Mask>, bits: seq<bool>, a: nat)
    requires FormulaInRange(f, n) && MasksOf(f, n, masks) && bits == Bits(a, n)
    ensures forall k :: 0 <= k < |masks| ==> |masks[k].pos| == |masks[k].neg| == n
    ensures IsModel(f, n, a) <==> forall k :: 0 <= k < |masks| ==> Meets(bits, masks[k])
  {
    forall k | 0 <= k < |f| ensures Meets(bits, masks[k]) <==> Satisfies(Assigned(bits), f[k]) {
      MeetsSatisfies(f[k], n, masks[k], bits);
    }
  }

  lemma Decided(f: Formula, n: nat, isSat: bool)
    requires FormulaInRange(f, n)
    requires isSat ==> exists b :: 0 <= b < Power2(n) && IsModel(f, n, b)
    requires !isSat ==> forall b :: 0 <= b < Power2(n) ==> !IsModel(f, n, b)
    ensures isSat <==> !Unsatisfiable(f)
  {
    if !isSat {
      forall a ensures !Models(a, f) { var b := SomeNumber(f, n, a); }
    }
  }

  method Collect(ghost f: Formula, n: nat, alwaysTrue: seq<bool>, alwaysFalse: seq<bool>) returns (literals: seq<int>)
    requires FormulaInRange(f, n) && Masks(f, n, Power2(n), alwaysTrue, alwaysFalse)
    ensures literals == BackboneList(f, n)
  {
    hide Always, Backbone;
    literals := [];
    for v := 1 to n + 1
      invariant literals == BackboneList(f, v - 1)
    {
      AlwaysBackbone(f, n, v - 1);
      if alwaysTrue[v - 1] { literals := literals + [v]; }
      else if alwaysFalse[v - 1] { literals := literals + [-v]; }
    }
  }

  // ----- a complete board --------------------------------------------------------------------

  /** The backbone literals a board shows for its first n variables. */
  function Shown(statuses: seq<int>, n: nat): seq<int>
    requires n < |statuses|
  {
    if n == 0 then [] else
      Shown(statuses, n - 1) + if statuses[n] == POSITIVE then [n] else if statuses[n] == NEGATIVE then [-(n as int)] else []
  }

  /** Once every variable is decided, the board shows exactly the backbone. */
  lemma {:induction false} BoardComplete(f: Formula, statuses: seq<int>, n: nat)
    requires !Unsatisfiable(f) && n < |statuses|
    requires forall v :: 1 <= v <= n ==> statuses[v] != UNKNOWN && Right(f, v, statuses[v])
    ensures Shown(statuses, n) == BackboneList(f, n)
  {
    if n > 0 {
      BoardComplete(f, statuses, n - 1);
      assert Right(f, n, statuses[n]);
      TruthMeans(f, n);
    }
  }

  /** After any run, a board with every variable decided shows what the enumeration returns. */
  lemma BoardIsBackbone(f: Formula, n: nat, processes: nat, events: seq<Event>, i: nat)
    requires !Unsatisfiable(f) && Legal(f, Start(n, processes), events)
    requires var t := Run(f, Start(n, processes), events);
             i < |t.procs| && forall v :: 1 <= v <= n && v < |t.procs[i].board| ==> t.procs[i].board[v] != UNKNOWN
    ensures var board := Run(f, Start(n, processes), events).procs[i].board;
            |board| == n + 1 && Shown(board, n) == BackboneList(f, n)
  {
    hide Truth;
    EveryRun(f, n, processes, events);
    var t := Run(f, Start(n, processes), events);
    assert ProcessRight(f, t, i);
    BoardComplete(f, t.procs[i].board, n);
  }
}
