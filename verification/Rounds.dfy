/** What a run of the cube-and-conquer scheduler is: rounds of searching, sharing,
    closing, simplifying and splitting, each of which does all its work. */
module Rounds {
  import opened Cnf
  import opened CubeTree

  // ----- the solvers that do the work --------------------------------------------------

  /** Answers may differ from phase to phase. A node's solver works on its cube and the
      units taken over, the parallel solver on the leaf clauses received. */
  datatype Solvers = Solvers(
    answer: (nat, Clause, seq<int>) -> int,
    inconsistent: (nat, Clause, seq<int>) -> bool,
    lookahead: (nat, Clause) -> int,
    learn: (nat, seq<Clause>) -> int,           // a unit, or 0
    parallel: (nat, seq<Clause>) -> int)

  ghost function ModelsUnder(root: Formula, cube: Clause, units: seq<int>): iset<Assignment> {
    iset a | Models(a, root) && HoldsAll(a, cube) && HoldsAll(a, units)
  }

  ghost function ModelsWith(root: Formula, taken: seq<Clause>): iset<Assignment> {
    iset a | Models(a, root) && Models(a, taken)
  }

  /** The solvers' answers are right for what they work on. */
  ghost predicate Trusted(o: Solvers, root: Formula) {
    && (forall r, c, us :: AnswerIsRight(o.answer(r, c, us), ModelsUnder(root, c, us)))
    && (forall r, c, us :: o.inconsistent(r, c, us) ==> AnswerIsRight(20, ModelsUnder(root, c, us)))
    && (forall r, taken :: o.learn(r, taken) != 0 ==> forall a :: a in ModelsWith(root, taken) ==> Holds(a, o.learn(r, taken)))
    && (forall r, taken :: AnswerIsRight(o.parallel(r, taken), ModelsWith(root, taken)))
  }

  // ----- which nodes are split -------------------------------------------------------

  datatype Window = Window(first: int, last: int, numtosplit: int)

  function Share(numactive: int, branches: int): int {
    (numactive * branches + 99) / 100
  }

  /** The range of positions looked at before the next split. */
  function FirstLkhd(numnodes: int, maxactive: int, branches: int, asymmetric: bool): Window {
    var numactive := if maxactive > numnodes then numnodes else maxactive;
    var share := Share(numactive, branches);
    var delta := maxactive - numnodes;
    var filled := if share <= delta then delta else share;
    var num := if numnodes < maxactive then (if filled > numnodes then numnodes else filled) else share;
    if asymmetric then Window(numactive - num, numactive - 1, num)
    else Window(0, if num > numnodes then numnodes - 1 else num - 1, num)
  }

  /** The range lies inside the array, holds as many nodes as are to be split, at
      least one and no more than may be active, and fills up the active nodes. */
  lemma WindowFits(numnodes: int, maxactive: int, branches: int, asymmetric: bool)
    requires numnodes >= 1 && maxactive >= 1 && 1 <= branches <= 100
    ensures var w := FirstLkhd(numnodes, maxactive, branches, asymmetric);
            && 0 <= w.first <= w.last < numnodes && w.last - w.first + 1 == w.numtosplit <= maxactive
            && (numnodes < maxactive ==> w.numtosplit == numnodes || numnodes + w.numtosplit >= maxactive)
            && (numnodes >= maxactive ==> maxactive * branches <= 100 * w.numtosplit < maxactive * branches + 100)
  {
    hide Share;
    ShareFits(if maxactive > numnodes then numnodes else maxactive, branches);
  }

  lemma ShareFits(numactive: int, branches: int)
    requires numactive >= 1 && 1 <= branches <= 100
    ensures var share := Share(numactive, branches);
            1 <= share <= numactive && numactive * branches <= 100 * share < numactive * branches + 100
  {
    var all := numactive * branches;
    assert all <= 100 * numactive by { assert numactive * (100 - branches) >= 0; }
    assert all >= numactive by { assert numactive * (branches - 1) >= 0; }
  }

  /** How many nodes may be active and what share of them is split; and how often more are worked on. */
  datatype Schedule = Schedule(maxactive: int, branches: int, asymmetric: bool, fullint: nat)

  predicate ValidSchedule(s: Schedule) {
    s.maxactive >= 1 && 1 <= s.branches <= 100
  }

  predicate NowFull(s: Schedule, round: nat) {
    s.fullint != 0 && round % s.fullint == 0
  }

  /** How many nodes are searched in a round, and how many simplified. */
  function SearchLimit(s: Schedule, round: nat): int {
    if NowFull(s, round) then 2 * s.maxactive else s.maxactive
  }

  function SimpLimit(s: Schedule, round: nat): int {
    if NowFull(s, round) then 4 * s.maxactive else s.maxactive
  }

  // ----- working on nodes ----------------------------------------------------------------

  /** The nodes whose solver is not inconsistent. */
  ghost function Ready(t: Tree): set<int> {
    t.alive - t.refuted
  }

  /** The nodes of a set have taken over all units, and what their solvers say is recorded. */
  ghost function Worked(o: Solvers, phase: nat, t: Tree, w: set<int>): Tree
    requires w <= t.cubes.Keys
  {
    t.(consumed := map id | id in t.consumed :: if id in w then |t.units| else t.consumed[id],
       res := map id | id in t.res ::
         if id in w && !o.inconsistent(phase, t.cubes[id], t.units) then o.answer(phase, t.cubes[id], t.units) else t.res[id],
       refuted := t.refuted + set id | id in w && o.inconsistent(phase, t.cubes[id], t.units))
  }

  /** As many nodes as there are, up to the limit, were worked on. */
  ghost predicate Works(o: Solvers, phase: nat, limit: int, t: Tree, u: Tree) {
    WellFormed(t) && exists w :: w <= Ready(t) && |w| == Least(limit, |Ready(t)|) && u == Worked(o, phase, t, w)
  }

  function Least(a: int, b: int): int { if a < b then a else b }

  // ----- the parallel solver -------------------------------------------------------------

  /** It receives the oldest leaf clause, learns a unit, and may be done. */
  ghost function Received(t: Tree): Tree {
    if t.queue == [] then t else t.(queue := t.queue[1..], taken := t.taken + [t.queue[0]])
  }

  ghost function Shared(o: Solvers, phase: nat, noparallel: bool, t: Tree): Tree {
    if noparallel then t
    else
      var r := Received(t);
      var l, p := o.learn(phase, r.taken), o.parallel(phase, r.taken);
      r.(units := if l != 0 then r.units + [l] else r.units, parallel := if p != 0 then p else r.parallel)
  }

  // ----- closing and splitting -----------------------------------------------------------

  /** Whether the node is closed at the next flush. */
  predicate Closing(res: int, inconsistent: bool) {
    res == 20 || inconsistent
  }

  ghost function ToClose(t: Tree): set<int>
    requires WellFormed(t)
  {
    set id | id in t.alive && Closing(t.res[id], id in t.refuted)
  }

  /** The node keeps the literal, the child gets its negation. */
  ghost function SplitInto(t: Tree, id: int, lit: int, child: int): Tree
    requires id in t.cubes && id in t.consumed
  {
    var c := t.cubes[id];
    t.(cubes := t.cubes[child := c + [-lit]][id := c + [lit]], alive := t.alive + {child},
       res := t.res[child := 0], consumed := t.consumed[child := t.consumed[id]])
  }

  lemma SplitTree(t: Tree, id: int, lit: int, child: int)
    requires Sound(t) && t.pending == map[] && id in t.alive && child !in t.cubes && lit != 0
    ensures Enabled(t, Open(id, lit, child))
    ensures var m := Next(t, Open(id, lit, child));
            WellFormed(m) && Enabled(m, Extend(id)) && SplitInto(t, id, lit, child) == Next(m, Extend(id))
    ensures Sound(SplitInto(t, id, lit, child)) && child !in t.refuted
  {
    NextSound(t, Open(id, lit, child));
    var m := Next(t, Open(id, lit, child));
    NextSound(m, Extend(id));
    assert Next(m, Extend(id)).pending == map[];
    assert Next(m, Extend(id)).cubes == t.cubes[child := t.cubes[id] + [-lit]][id := t.cubes[id] + [lit]];
  }

  lemma SplitParts(t: Tree, id: int, lit: int, child: int)
    requires id in t.cubes && id in t.consumed
    ensures var n := SplitInto(t, id, lit, child);
            && n.pending == t.pending && n.units == t.units && n.parallel == t.parallel && n.queue == t.queue
            && n.root == t.root && n.taken == t.taken
  {}

  /** The leaf clauses of the nodes, as they were closed. */
  ghost function Leaves(t: Tree, closed: seq<int>): (r: seq<Clause>)
    requires forall i :: 0 <= i < |closed| ==> closed[i] in t.cubes
    ensures |r| == |closed|
  {
    seq(|closed|, i requires 0 <= i < |closed| => Negated(t.cubes[closed[i]]))
  }

  ghost predicate Distinct(s: seq<int>) {
    forall i, j :: 0 <= i < j < |s| ==> s[i] != s[j]
  }

  /** From t on, exactly the given nodes were closed, none with a solution, and their negated cubes queued. */
  ghost predicate Flushing(t: Tree, s: Tree, closed: seq<int>)
    requires WellFormed(t)
  {
    && Distinct(closed) && (forall i :: 0 <= i < |closed| ==> closed[i] in ToClose(t))
    && s == t.(alive := s.alive, queue := t.queue + Leaves(t, closed))
    && s.alive == set id | id in t.alive && id !in closed
  }

  lemma FlushingNext(t: Tree, s: Tree, closed: seq<int>, id: int)
    requires WellFormed(t) && Flushing(t, s, closed) && id in s.alive && Closing(s.res[id], id in s.refuted)
    ensures Flushing(t, s.(alive := s.alive - {id}, queue := s.queue + [Negated(s.cubes[id])]), closed + [id])
  {
    var next := closed + [id];
    assert forall x :: x in next <==> x in closed || x == id;
    assert Leaves(t, next) == Leaves(t, closed) + [Negated(t.cubes[id])];
  }

  /** All nodes without a solution were closed, in some order. */
  ghost predicate Flushed(t: Tree, s: Tree) {
    WellFormed(t) && exists closed :: Flushing(t, s, closed) && forall id :: id in ToClose(t) ==> id in closed
  }

  /** One split: a node, its literal, and its child. */
  datatype Cut = Cut(id: int, lit: int, child: int)

  ghost function SplitAll(t: Tree, cuts: seq<Cut>): Tree {
    if cuts == [] then t
    else
      var u, c := SplitAll(t, cuts[..|cuts| - 1]), cuts[|cuts| - 1];
      if c.id in u.cubes && c.id in u.consumed then SplitInto(u, c.id, c.lit, c.child) else u
  }

  /** Different nodes are split, on the literals their solvers chose; the children are new. */
  ghost predicate Cuts(o: Solvers, phase: nat, t: Tree, cuts: seq<Cut>) {
    && (forall i :: 0 <= i < |cuts| ==> CutRight(o, phase, t, cuts[i]))
    && (forall i, j :: 0 <= i < j < |cuts| ==> cuts[i].id != cuts[j].id && cuts[i].child != cuts[j].child)
  }

  ghost predicate CutRight(o: Solvers, phase: nat, t: Tree, c: Cut) {
    && c.id in Ready(t) && c.id in t.cubes && c.lit == o.lookahead(phase, t.cubes[c.id]) != 0
    && c.child !in t.cubes
  }

  ghost predicate IsCut(cuts: seq<Cut>, id: int) {
    exists i :: 0 <= i < |cuts| && cuts[i].id == id
  }

  /** Look-ahead at so many nodes, and the split of all of them that have a literal and no inconsistency. */
  ghost predicate Splits(o: Solvers, phase: nat, num: int, t: Tree, u: Tree) {
    exists chosen: set<int>, cuts ::
      && chosen <= t.alive && |chosen| == num && Cuts(o, phase, t, cuts) && u == SplitAll(t, cuts)
      && CutsAre(o, phase, t, chosen, cuts)
  }

  ghost predicate CutsAre(o: Solvers, phase: nat, t: Tree, chosen: set<int>, cuts: seq<Cut>) {
    forall id :: IsCut(cuts, id) <==> id in chosen && id in Ready(t) && id in t.cubes && o.lookahead(phase, t.cubes[id]) != 0
  }

  // ----- whole runs -------------------------------------------------------------------------

  /** The tree at the ends of the phases of a round: search, sharing, closing; simplification, closing; split, closing. */
  datatype Round = Round(start: Tree, searched: Tree, shared: Tree, finished: Tree,
                         simplified: Tree, flushed: Tree, split: Tree, end: Tree)

  /** What a tree says once its nodes without solution are closed. */
  ghost function Verdict(t: Tree): int {
    if t.alive == {} then 20
    else if exists id :: id in t.alive && id in t.res && t.res[id] == 10 then 10
    else t.parallel
  }

  /** Whether any node is left. */
  ghost function Emptied(t: Tree): int {
    if t.alive == {} then 20 else 0
  }

  ghost predicate Searches(o: Solvers, s: Schedule, noparallel: bool, k: nat, r: Round) {
    && Works(o, 2 * k, SearchLimit(s, k), r.start, r.searched)
    && r.shared == Shared(o, 2 * k, noparallel, r.searched) && Flushed(r.shared, r.finished)
  }

  ghost predicate Simplifies(o: Solvers, s: Schedule, k: nat, r: Round) {
    Works(o, 2 * k + 1, SimpLimit(s, k + 1), r.finished, r.simplified) && Flushed(r.simplified, r.flushed)
  }

  ghost predicate Divides(o: Solvers, s: Schedule, k: nat, r: Round) {
    && Splits(o, 2 * k + 1, FirstLkhd(|r.flushed.alive|, s.maxactive, s.branches, s.asymmetric).numtosplit, r.flushed, r.split)
    && Flushed(r.split, r.end)
  }

  /** A whole round that decided nothing. */
  ghost predicate Undecided(o: Solvers, s: Schedule, noparallel: bool, k: nat, r: Round) {
    && Searches(o, s, noparallel, k, r) && Verdict(r.finished) == 0
    && Simplifies(o, s, k, r) && Emptied(r.flushed) == 0 && Divides(o, s, k, r) && Emptied(r.end) == 0
  }

  /** A round that decided something, and where. */
  ghost predicate Decides(o: Solvers, s: Schedule, noparallel: bool, k: nat, r: Round, t: Tree, res: int) {
    && res != 0 && Searches(o, s, noparallel, k, r)
    && if Verdict(r.finished) != 0 then t == r.finished && res == Verdict(t)
       else
         && Simplifies(o, s, k, r)
         && if Emptied(r.flushed) != 0 then t == r.flushed && res == Emptied(t)
            else Divides(o, s, k, r) && t == r.end && res == Emptied(t)
  }

  /** A round starts where the one before ended. */
  ghost predicate StartsRight(t: Tree, log: seq<Round>, k: nat)
    requires k < |log|
  {
    log[k].start == if k == 0 then t else log[k - 1].end
  }

  /** Undecided rounds, one after the other, from t to u. */
  ghost predicate InRounds(o: Solvers, s: Schedule, noparallel: bool, t: Tree, log: seq<Round>, u: Tree) {
    && (forall k :: 0 <= k < |log| ==> Undecided(o, s, noparallel, k, log[k]))
    && (forall k :: 0 <= k < |log| ==> StartsRight(t, log, k))
    && u == if log == [] then t else log[|log| - 1].end
  }

  /** A run ends in the first round that decides something, or after as many as the budget allows. */
  ghost predicate Ran(o: Solvers, s: Schedule, noparallel: bool, budget: nat, from: Tree, log: seq<Round>, to: Tree, res: int) {
    exists t, u ::
      && Flushed(from, t) && InRounds(o, s, noparallel, t, log, u) && |log| <= budget
      && if Emptied(t) != 0 then res == Emptied(t) && to == t && log == []
         else if res == 0 then |log| == budget && to == u
         else |log| < budget && exists r: Round :: r.start == u && Decides(o, s, noparallel, |log|, r, to, res)
  }

  // ----- each step of the phases ------------------------------------------------------------

  /** One node takes over all units, and its solver is asked. */
  ghost function WorkedOne(o: Solvers, phase: nat, t: Tree, id: int): Tree
    requires id in t.cubes
  {
    var c := t.cubes[id];
    var n := t.(consumed := t.consumed[id := |t.units|]);
    if o.inconsistent(phase, c, t.units) then n.(refuted := n.refuted + {id})
    else n.(res := n.res[id := o.answer(phase, c, t.units)])
  }

  lemma NothingWorked(o: Solvers, phase: nat, t: Tree)
    ensures Worked(o, phase, t, {}) == t
  {}

  lemma WorkedNext(o: Solvers, phase: nat, t: Tree, w: set<int>, id: int)
    requires WellFormed(t) && w <= t.cubes.Keys && id in t.cubes && id !in w
    ensures WorkedOne(o, phase, Worked(o, phase, t, w), id) == Worked(o, phase, t, w + {id})
  {
    var a, b := WorkedOne(o, phase, Worked(o, phase, t, w), id), Worked(o, phase, t, w + {id});
    assert a.res == b.res;
    assert a.consumed == b.consumed;
    assert a.refuted == b.refuted;
  }

  lemma NothingClosed(t: Tree)
    requires WellFormed(t)
    ensures Flushing(t, t, [])
  {}

  lemma SplitNext(t: Tree, cuts: seq<Cut>, c: Cut)
    requires var u := SplitAll(t, cuts); c.id in u.cubes && c.id in u.consumed
    ensures SplitAll(t, cuts + [c]) == SplitInto(SplitAll(t, cuts), c.id, c.lit, c.child)
  {
    assert (cuts + [c])[..|cuts|] == cuts;
  }

  // ----- what runs do ------------------------------------------------------------------------

  ghost predicate IsChild(cuts: seq<Cut>, id: int) {
    exists i :: 0 <= i < |cuts| && cuts[i].child == id
  }

  /** Splitting adds one node per cut, with the negated literal; the node itself gets the literal; others stay. */
  lemma {:induction false} SplitAllMeans(o: Solvers, phase: nat, t: Tree, cuts: seq<Cut>)
    requires WellFormed(t) && Cuts(o, phase, t, cuts)
    ensures SplitRight(t, SplitAll(t, cuts), cuts)
  {
    if cuts != [] {
      var front, c := cuts[..|cuts| - 1], cuts[|cuts| - 1];
      assert cuts == front + [c];
      assert CutRight(o, phase, t, c);
      CutsFront(o, phase, t, front, c);
      SplitAllMeans(o, phase, t, front);
      SplitMore(t, SplitAll(t, front), front, c);
    } else {
      assert forall id :: !IsChild([], id);
    }
  }

  ghost predicate SplitRight(t: Tree, u: Tree, cuts: seq<Cut>) {
    && u.cubes.Keys == u.consumed.Keys && |u.alive| == |t.alive| + |cuts|
    && (forall i :: 0 <= i < |cuts| ==> Halved(t, u, cuts[i]))
    && (forall id :: id in t.cubes && !IsCut(cuts, id) ==> id in u.cubes && u.cubes[id] == t.cubes[id])
    && (forall id :: id in u.alive <==> id in t.alive || IsChild(cuts, id))
    && (forall id :: id in u.cubes <==> id in t.cubes || IsChild(cuts, id))
    && u.root == t.root && u.units == t.units && u.queue == t.queue && u.refuted == t.refuted && u.parallel == t.parallel
  }

  lemma CutsFront(o: Solvers, phase: nat, t: Tree, front: seq<Cut>, c: Cut)
    requires Cuts(o, phase, t, front + [c])
    ensures Cuts(o, phase, t, front) && !IsCut(front, c.id) && !IsChild(front, c.child)
    ensures forall i :: 0 <= i < |front| ==> front[i].child != c.id && front[i].id != c.child && front[i].child !in t.cubes
  {
    hide CutRight;
    var cuts := front + [c];
    assert cuts[|front|] == c && CutRight(o, phase, t, c);
    forall i | 0 <= i < |front|
      ensures CutRight(o, phase, t, front[i]) && front[i].id != c.id && front[i].child != c.child
    {
      assert cuts[i] == front[i] && cuts[i].id != cuts[|front|].id;
    }
    forall i, j | 0 <= i < j < |front| ensures front[i].id != front[j].id && front[i].child != front[j].child {
      assert cuts[i] == front[i] && cuts[j] == front[j];
    }
    forall i | 0 <= i < |front| ensures front[i].child != c.id && front[i].id != c.child && front[i].child !in t.cubes {
      CutParts(o, phase, t, front[i]);
      CutParts(o, phase, t, c);
    }
  }

  lemma CutParts(o: Solvers, phase: nat, t: Tree, c: Cut)
    requires CutRight(o, phase, t, c)
    ensures c.id in t.cubes && c.child !in t.cubes && c.id in t.alive
  {}

  lemma SplitMore(t: Tree, v: Tree, front: seq<Cut>, c: Cut)
    requires WellFormed(t) && SplitRight(t, v, front) && c.id in t.cubes && c.id in t.alive && c.child !in t.cubes
    requires !IsCut(front, c.id) && !IsChild(front, c.child)
    requires forall i :: 0 <= i < |front| ==> front[i].child != c.id && front[i].id != c.child && front[i].child !in t.cubes
    ensures c.id in v.cubes && c.id in v.consumed && SplitRight(t, SplitInto(v, c.id, c.lit, c.child), front + [c])
  {
    var cuts, u := front + [c], SplitInto(v, c.id, c.lit, c.child);
    assert cuts[|front|] == c;
    forall id ensures IsCut(cuts, id) <==> IsCut(front, id) || id == c.id { CutAppend(front, c, id); }
    forall id ensures IsChild(cuts, id) <==> IsChild(front, id) || id == c.child { CutAppend(front, c, id); }
    hide IsCut, IsChild;
    assert v.cubes[c.id] == t.cubes[c.id];
    forall i | 0 <= i < |cuts| ensures Halved(t, u, cuts[i]) {
      if i < |front| { HalvedStill(t, v, u, front[i], c); }
    }
  }

  lemma HalvedStill(t: Tree, v: Tree, u: Tree, d: Cut, c: Cut)
    requires Halved(t, v, d) && d.id != c.id && d.child != c.child && d.child != c.id && d.id != c.child
    requires c.id in v.cubes && c.id in v.consumed && u == SplitInto(v, c.id, c.lit, c.child)
    ensures Halved(t, u, d)
  {}

  lemma CutAppend(front: seq<Cut>, c: Cut, id: int)
    ensures IsCut(front + [c], id) <==> IsCut(front, id) || id == c.id
    ensures IsChild(front + [c], id) <==> IsChild(front, id) || id == c.child
  {
    var cuts := front + [c];
    assert cuts[|front|] == c;
    if IsCut(front, id) {
      var i :| 0 <= i < |front| && front[i].id == id;
      assert cuts[i].id == id;
    }
    if IsChild(front, id) {
      var i :| 0 <= i < |front| && front[i].child == id;
      assert cuts[i].child == id;
    }
  }

  ghost predicate Halved(t: Tree, u: Tree, c: Cut) {
    && c.id in t.cubes && c.id in u.cubes && c.child in u.cubes
    && u.cubes[c.id] == t.cubes[c.id] + [c.lit] && u.cubes[c.child] == t.cubes[c.id] + [-c.lit]
  }

  /** When no more nodes are open than may be worked on, every one records what its solver says. */
  lemma AllAsked(o: Solvers, phase: nat, limit: int, t: Tree, u: Tree, id: int)
    requires Works(o, phase, limit, t, u) && |t.alive| <= limit && id in t.alive
    ensures u.alive == t.alive && id in t.cubes && id in u.res && id in u.consumed
    ensures id !in t.refuted ==> u.consumed[id] == |t.units| && u.refuted >= t.refuted
    ensures id !in t.refuted && !o.inconsistent(phase, t.cubes[id], t.units) ==> id !in u.refuted
    ensures id !in t.refuted ==>
              if o.inconsistent(phase, t.cubes[id], t.units) then id in u.refuted
              else u.res[id] == o.answer(phase, t.cubes[id], t.units)
  {
    var w :| w <= Ready(t) && |w| == Least(limit, |Ready(t)|) && u == Worked(o, phase, t, w);
    Fewer(Ready(t), t.alive);
    SameSize(w, Ready(t));
  }

  lemma Fewer(a: set<int>, b: set<int>)
    requires a <= b
    ensures |a| <= |b|
  {
    assert b == a + (b - a);
  }

  lemma SameSize(a: set<int>, b: set<int>)
    requires a <= b && |a| == |b|
    ensures a == b
  {
    assert b == a + (b - a);
  }

  /** One open node whose solver decides it, without being inconsistent, decides the run. */
  lemma OneNode(o: Solvers, s: Schedule, noparallel: bool, budget: nat, from: Tree, log: seq<Round>, to: Tree, res: int, id: int)
    requires Ran(o, s, noparallel, budget, from, log, to, res) && WellFormed(from) && ValidSchedule(s) && budget > 0
    requires from.alive == {id} && from.res[id] != 20 && id !in from.refuted
    requires !o.inconsistent(0, from.cubes[id], from.units)
    requires var r := o.answer(0, from.cubes[id], from.units); r == 10 || r == 20
    ensures log == [] && res == o.answer(0, from.cubes[id], from.units)
  {
    hide Works, Shared, Simplifies, Divides, Flushed, Searches, Verdict, ToClose;
    var t, u :|
      && Flushed(from, t) && InRounds(o, s, noparallel, t, log, u) && |log| <= budget
      && if Emptied(t) != 0 then res == Emptied(t) && to == t && log == []
         else if res == 0 then |log| == budget && to == u
         else |log| < budget && exists r: Round :: r.start == u && Decides(o, s, noparallel, |log|, r, to, res);
    OneStays(from, id);
    NothingToClose(from, t);
    FirstOf(o, s, noparallel, t, log, u);
    var first: Round;
    if log == [] {
      first :| first.start == u && Decides(o, s, noparallel, |log|, first, to, res);
    } else {
      first := log[0];
    }
    FirstRound(o, s, noparallel, first, id);
  }

  lemma OneStays(t: Tree, id: int)
    requires WellFormed(t) && t.alive == {id} && t.res[id] != 20 && id !in t.refuted
    ensures ToClose(t) == {}
  {}

  lemma ClosedIn(t: Tree, u: Tree, closed: seq<int>)
    requires WellFormed(t) && Flushing(t, u, closed)
    ensures closed != [] ==> closed[0] in ToClose(t)
    ensures forall id :: id in closed ==> id in ToClose(t)
  {}

  lemma FirstOf(o: Solvers, s: Schedule, noparallel: bool, t: Tree, log: seq<Round>, u: Tree)
    requires InRounds(o, s, noparallel, t, log, u)
    ensures if log == [] then u == t else Undecided(o, s, noparallel, 0, log[0]) && log[0].start == t
  {
    hide Undecided;
    assert log != [] ==> StartsRight(t, log, 0);
  }

  ghost function Blank(t: Tree): Round { Round(t, t, t, t, t, t, t, t) }

  lemma EmptiedNot(t: Tree)
    ensures Emptied(t) == 0 <==> t.alive != {}
  {}

  lemma LimitsFit(s: Schedule, k: nat)
    requires ValidSchedule(s)
    ensures SearchLimit(s, k) >= 0 && SimpLimit(s, k + 1) >= 0
  {}

  lemma NoRounds(o: Solvers, s: Schedule, noparallel: bool, t: Tree)
    ensures InRounds(o, s, noparallel, t, [], t)
  {}

  lemma RanAtOnce(o: Solvers, s: Schedule, noparallel: bool, budget: nat, from: Tree, t: Tree, res: int)
    requires Flushed(from, t) && res == Emptied(t) != 0
    ensures Ran(o, s, noparallel, budget, from, [], t, res)
  {
    NoRounds(o, s, noparallel, t);
  }

  lemma RanDecided(o: Solvers, s: Schedule, noparallel: bool, budget: nat, from: Tree, t: Tree, log: seq<Round>, u: Tree,
                   r: Round, to: Tree, res: int)
    requires Flushed(from, t) && Emptied(t) == 0 && InRounds(o, s, noparallel, t, log, u) && |log| < budget
    requires r.start == u && res != 0 && Decides(o, s, noparallel, |log|, r, to, res)
    ensures Ran(o, s, noparallel, budget, from, log, to, res)
  {
    hide Flushed, InRounds, Decides, Emptied;
  }

  lemma RanAll(o: Solvers, s: Schedule, noparallel: bool, budget: nat, from: Tree, t: Tree, log: seq<Round>, to: Tree)
    requires Flushed(from, t) && Emptied(t) == 0 && InRounds(o, s, noparallel, t, log, to) && |log| == budget
    ensures Ran(o, s, noparallel, budget, from, log, to, 0)
  {
    hide Flushed, InRounds, Emptied;
  }

  lemma RoundsMore(o: Solvers, s: Schedule, noparallel: bool, t: Tree, log: seq<Round>, u: Tree, r: Round)
    requires InRounds(o, s, noparallel, t, log, u) && Undecided(o, s, noparallel, |log|, r) && r.start == u
    ensures InRounds(o, s, noparallel, t, log + [r], r.end)
  {
    hide Undecided;
    var next := log + [r];
    forall k | 0 <= k < |next| ensures Undecided(o, s, noparallel, k, next[k]) && StartsRight(t, next, k) {
      if k < |log| {
        assert next[k] == log[k] && StartsRight(t, log, k);
        assert k > 0 ==> next[k - 1] == log[k - 1];
      }
    }
  }

  lemma NothingToClose(t: Tree, u: Tree)
    requires Flushed(t, u) && ToClose(t) == {}
    ensures u == t
  {
    var closed :| Flushing(t, u, closed) && forall id :: id in ToClose(t) ==> id in closed;
    ClosedIn(t, u, closed);
    assert u.queue == t.queue;
  }

  lemma FirstRound(o: Solvers, s: Schedule, noparallel: bool, r: Round, id: int)
    requires Searches(o, s, noparallel, 0, r) && WellFormed(r.start) && ValidSchedule(s)
    requires r.start.alive == {id} && r.start.res[id] != 20 && id !in r.start.refuted
    requires !o.inconsistent(0, r.start.cubes[id], r.start.units)
    requires var x := o.answer(0, r.start.cubes[id], r.start.units); x == 10 || x == 20
    ensures Verdict(r.finished) == o.answer(0, r.start.cubes[id], r.start.units)
  {
    hide Works, Flushed, Shared, Verdict, WellFormed;
    AllAsked(o, 0, SearchLimit(s, 0), r.start, r.searched, id);
    SharedKeeps(o, 0, noparallel, r.searched);
    OneCloses(r.shared, r.finished, id);
  }

  lemma SharedKeeps(o: Solvers, phase: nat, noparallel: bool, t: Tree)
    ensures var u := Shared(o, phase, noparallel, t);
            u.alive == t.alive && u.res == t.res && u.refuted == t.refuted && u.cubes == t.cubes && u.root == t.root
  {}

  lemma OneCloses(u: Tree, v: Tree, id: int)
    requires Flushed(u, v) && u.alive == {id} && id in u.res && id !in u.refuted && (u.res[id] == 10 || u.res[id] == 20)
    ensures Verdict(v) == u.res[id]
  {
    var closed :| Flushing(u, v, closed) && forall i :: i in ToClose(u) ==> i in closed;
    if u.res[id] == 20 {
      assert id in ToClose(u);
    } else {
      ClosedIn(u, v, closed);
      assert id !in ToClose(u);
      assert id in v.alive && id in v.res && v.res[id] == 10;
    }
  }
}
