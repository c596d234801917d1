/** Cube and conquer: the search space is split into cubes, closed cubes become
    clauses for a parallel solver, and its units go back to the nodes. */
module CubeTree {
  import opened Cnf

  ghost predicate HoldsAll(a: Assignment, lits: seq<int>) {
    forall l :: l in lits ==> Holds(a, l)
  }

  function Negated(lits: seq<int>): (r: seq<int>)
    ensures |r| == |lits| && forall i :: 0 <= i < |lits| ==> r[i] == -lits[i]
  {
    seq(|lits|, i requires 0 <= i < |lits| => -lits[i])
  }

  lemma NegatedHolds(a: Assignment, lits: seq<int>)
    requires 0 !in lits
    ensures Satisfies(a, Negated(lits)) <==> !HoldsAll(a, lits)
  {
    var r := Negated(lits);
    if !HoldsAll(a, lits) {
      var l :| l in lits && !Holds(a, l);
      var i :| 0 <= i < |lits| && lits[i] == l;
      assert r[i] in r && Holds(a, r[i]);
    }
    if Satisfies(a, r) {
      var l :| l in r && Holds(a, l);
      var i :| 0 <= i < |r| && r[i] == l;
      assert lits[i] in lits && !Holds(a, lits[i]);
    }
  }

  /** All nodes ever opened, by number; the leaf clauses; and the units. */
  datatype Tree = Tree(
    root: Formula,
    cubes: map<int, Clause>,    // the decisions of every node, closed ones included
    alive: set<int>,            // the open nodes
    pending: map<int, int>,     // nodes whose child is open but that are not extended yet
    res: map<int, int>,         // the last answer for each node
    refuted: set<int>,          // nodes whose solver has become inconsistent
    consumed: map<int, nat>,    // how many units each node has taken over
    units: seq<int>,            // what the parallel solver learned
    queue: seq<Clause>,         // leaf clauses under way to it
    taken: seq<Clause>,         // leaf clauses it has received
    parallel: int)              // its answer

  ghost predicate WellFormed(t: Tree) {
    && t.alive <= t.cubes.Keys == t.res.Keys == t.consumed.Keys && t.pending.Keys <= t.alive && t.refuted <= t.cubes.Keys
    && (forall id :: id in t.consumed ==> t.consumed[id] <= |t.units|)
    && (forall id :: id in t.cubes ==> 0 !in t.cubes[id])
    && (forall id :: id in t.pending ==> t.pending[id] != 0)
  }

  /** The cube a node has once a split under way is over. */
  ghost function Cube(t: Tree, id: int): Clause
    requires id in t.cubes
  {
    if id in t.pending then t.cubes[id] + [t.pending[id]] else t.cubes[id]
  }

  /** What a solver at a node works on: the formula, its cube and the units taken over. */
  ghost predicate NodeModels(a: Assignment, t: Tree, id: int)
    requires WellFormed(t) && id in t.cubes
  {
    Models(a, t.root) && HoldsAll(a, t.cubes[id]) && HoldsAll(a, t.units[..t.consumed[id]])
  }

  /** What the parallel solver works on: the formula and the leaf clauses received. */
  ghost predicate ParallelModels(a: Assignment, t: Tree) {
    Models(a, t.root) && Models(a, t.taken)
  }

  ghost function RootModels(t: Tree): iset<Assignment> { iset a | Models(a, t.root) }

  ghost function ParallelModelSet(t: Tree): iset<Assignment> { iset a | ParallelModels(a, t) }

  ghost function NodeModelSet(t: Tree, id: int): iset<Assignment>
    requires WellFormed(t) && id in t.cubes
  {
    iset a | NodeModels(a, t, id)
  }

  // ----- the steps ---------------------------------------------------------------

  datatype Event =
    | Open(id: int, lit: int, child: int)   // a child with the negated literal
    | Extend(id: int)                       // the literal itself for the node
    | Answer(id: int, r: int)               // a simplification or search is over
    | Refute(id: int)                       // its solver is inconsistent
    | Consume(id: int)                      // the node takes over the units so far
    | Close(id: int)                        // its cube becomes a leaf clause
    | TakeLeaf                              // the parallel solver receives a leaf clause
    | Unit(lit: int)                        // it learns a unit
    | Parallel(r: int)                      // it is done

  /** What the solvers answer is right for what they work on. */
  ghost predicate Enabled(t: Tree, e: Event)
    requires WellFormed(t)
  {
    match e
    case Open(id, lit, child) => id in t.alive && id !in t.pending && child !in t.cubes && lit != 0
    case Extend(id) => id in t.pending
    case Answer(id, r) => id in t.alive && AnswerIsRight(r, NodeModelSet(t, id))
    case Refute(id) => id in t.alive && AnswerIsRight(20, NodeModelSet(t, id))
    case Consume(id) => id in t.alive
    case Close(id) => id in t.alive && t.pending == map[] && (t.res[id] == 20 || id in t.refuted)
    case TakeLeaf => t.queue != []
    case Unit(lit) => forall a :: ParallelModels(a, t) ==> Holds(a, lit)
    case Parallel(r) => AnswerIsRight(r, ParallelModelSet(t))
  }

  ghost predicate AnswerIsRight(r: int, models: iset<Assignment>) {
    r == 0 || (r == 10 && models != iset{}) || (r == 20 && models == iset{})
  }

  ghost function Next(t: Tree, e: Event): Tree
    requires WellFormed(t) && Enabled(t, e)
  {
    match e
    case Open(id, lit, child) =>
      t.(cubes := t.cubes[child := t.cubes[id] + [-lit]], alive := t.alive + {child}, pending := t.pending[id := lit],
         res := t.res[child := 0], consumed := t.consumed[child := t.consumed[id]])
    case Extend(id) => t.(cubes := t.cubes[id := t.cubes[id] + [t.pending[id]]], pending := t.pending - {id})
    case Answer(id, r) => t.(res := t.res[id := r])
    case Refute(id) => t.(refuted := t.refuted + {id})
    case Consume(id) => t.(consumed := t.consumed[id := |t.units|])
    case Close(id) => t.(alive := t.alive - {id}, queue := t.queue + [Negated(t.cubes[id])])
    case TakeLeaf => t.(queue := t.queue[1..], taken := t.taken + [t.queue[0]])
    case Unit(lit) => t.(units := t.units + [lit])
    case Parallel(r) => t.(parallel := r)
  }

  ghost function Start(root: Formula): Tree {
    Tree(root, map[0 := []], {0}, map[], map[0 := 0], {}, map[0 := 0], [], [], [], 0)
  }

  // ----- what every step keeps ------------------------------------------------------

  /** Every assignment satisfies exactly one cube, open or closed. */
  ghost predicate Partition(t: Tree) {
    forall a :: Covered(t, a) && Apart(t, a)
  }

  ghost predicate Covered(t: Tree, a: Assignment) {
    exists id :: id in t.cubes && HoldsAll(a, Cube(t, id))
  }

  ghost predicate Apart(t: Tree, a: Assignment) {
    forall i, j :: i in t.cubes && j in t.cubes && HoldsAll(a, Cube(t, i)) && HoldsAll(a, Cube(t, j)) ==> i == j
  }

  /** A closed cube has no model, nor has a node that was answered 20. */
  ghost predicate ClosedRight(t: Tree, id: int)
    requires WellFormed(t) && id in t.cubes
  {
    && (id !in t.alive || t.res[id] == 20 || id in t.refuted ==> forall a :: Models(a, t.root) ==> !HoldsAll(a, t.cubes[id]))
    && (t.res[id] == 10 ==> exists a :: Models(a, t.root))
  }

  /** Everything that is shared follows from the root formula. */
  ghost predicate SharedRight(t: Tree) {
    forall a :: Models(a, t.root) ==> HoldsAll(a, t.units) && Models(a, t.queue) && Models(a, t.taken)
  }

  ghost predicate ParallelRight(t: Tree) {
    AnswerIsRight(t.parallel, RootModels(t))
  }

  ghost predicate Sound(t: Tree) {
    && WellFormed(t) && Partition(t) && SharedRight(t) && ParallelRight(t)
    && forall id :: id in t.cubes ==> ClosedRight(t, id)
  }

  lemma StartSound(root: Formula)
    ensures Sound(Start(root))
  {
    var t := Start(root);
    forall a ensures Covered(t, a) { assert 0 in t.cubes && HoldsAll(a, Cube(t, 0)); }
  }

  /** The two halves of a split cube. */
  lemma Halves(a: Assignment, c: Clause, lit: int)
    requires lit != 0
    ensures HoldsAll(a, c + [lit]) <==> HoldsAll(a, c) && Holds(a, lit)
    ensures HoldsAll(a, c + [-lit]) <==> HoldsAll(a, c) && !Holds(a, lit)
  {
    forall l ensures l in c + [lit] <==> l in c || l == lit {}
    forall l ensures l in c + [-lit] <==> l in c || l == -lit {}
    assert -lit in c + [-lit];
  }

  lemma OpenPartition(t: Tree, id: int, lit: int, child: int)
    requires WellFormed(t) && Partition(t) && Enabled(t, Open(id, lit, child))
    ensures Partition(Next(t, Open(id, lit, child)))
  {
    hide HoldsAll, Holds;
    var n := Next(t, Open(id, lit, child));
    assert forall i :: i in t.cubes && i != id ==> Cube(n, i) == Cube(t, i);
    forall a ensures Covered(n, a) && Apart(n, a) {
      Halves(a, t.cubes[id], lit);
      assert Covered(t, a) && Apart(t, a);
      var i :| i in t.cubes && HoldsAll(a, Cube(t, i));
      var j := if i == id && !Holds(a, lit) then child else i;
      assert j in n.cubes && HoldsAll(a, Cube(n, j));
    }
  }

  lemma OpenSound(t: Tree, id: int, lit: int, child: int)
    requires Sound(t) && Enabled(t, Open(id, lit, child))
    ensures Sound(Next(t, Open(id, lit, child)))
  {
    hide Partition;
    OpenPartition(t, id, lit, child);
    var n := Next(t, Open(id, lit, child));
    forall i | i in n.cubes ensures ClosedRight(n, i) {
      assert ClosedRight(t, if i == child then id else i);
      if i == child { forall a ensures HoldsAll(a, n.cubes[child]) ==> HoldsAll(a, t.cubes[id]) { Halves(a, t.cubes[id], lit); } }
    }
  }

  lemma ExtendSound(t: Tree, id: int)
    requires Sound(t) && Enabled(t, Extend(id))
    ensures Sound(Next(t, Extend(id)))
  {
    var n := Next(t, Extend(id));
    assert forall i :: i in t.cubes ==> Cube(n, i) == Cube(t, i);
    forall a ensures Covered(n, a) && Apart(n, a) {
      assert Covered(t, a) && Apart(t, a);
    }
    forall i | i in n.cubes ensures ClosedRight(n, i) {
      assert ClosedRight(t, i);
      forall a ensures HoldsAll(a, n.cubes[i]) ==> HoldsAll(a, t.cubes[i]) {}
    }
  }

  /** Units a node has taken over follow from the formula, so they cost no models. */
  lemma NodeIsCube(t: Tree, id: int, a: Assignment)
    requires Sound(t) && id in t.cubes
    ensures NodeModels(a, t, id) <==> Models(a, t.root) && HoldsAll(a, t.cubes[id])
  {
    if Models(a, t.root) { assert HoldsAll(a, t.units); }
  }

  lemma AnswerSound(t: Tree, id: int, r: int)
    requires Sound(t) && Enabled(t, Answer(id, r))
    ensures Sound(Next(t, Answer(id, r)))
  {
    var n := Next(t, Answer(id, r));
    var models := NodeModelSet(t, id);
    forall a ensures Covered(n, a) && Apart(n, a) {
      assert Covered(t, a) && Apart(t, a);
      assert forall i :: i in t.cubes ==> Cube(n, i) == Cube(t, i);
    }
    forall i | i in n.cubes ensures ClosedRight(n, i) {
      assert ClosedRight(t, i);
      if i == id && r == 20 {
        forall a | Models(a, t.root) ensures !HoldsAll(a, t.cubes[id]) {
          NodeIsCube(t, id, a);
          assert a !in models;
        }
      } else if i == id && r == 10 {
        var a :| a in models;
        assert Models(a, t.root);
      }
    }
  }

  lemma RefuteSound(t: Tree, id: int)
    requires Sound(t) && Enabled(t, Refute(id))
    ensures Sound(Next(t, Refute(id)))
  {
    var n := Next(t, Refute(id));
    forall a ensures Covered(n, a) && Apart(n, a) {
      assert Covered(t, a) && Apart(t, a);
      assert forall i :: i in t.cubes ==> Cube(n, i) == Cube(t, i);
    }
    forall a | Models(a, t.root) ensures !HoldsAll(a, t.cubes[id]) {
      NodeIsCube(t, id, a);
      assert a !in NodeModelSet(t, id);
    }
    forall i | i in n.cubes ensures ClosedRight(n, i) { assert ClosedRight(t, i); }
  }

  lemma ConsumeSound(t: Tree, id: int)
    requires Sound(t) && Enabled(t, Consume(id))
    ensures Sound(Next(t, Consume(id)))
  {
    var n := Next(t, Consume(id));
    forall a ensures Covered(n, a) && Apart(n, a) {
      assert Covered(t, a) && Apart(t, a);
      assert forall i :: i in t.cubes ==> Cube(n, i) == Cube(t, i);
    }
    forall i | i in n.cubes ensures ClosedRight(n, i) { assert ClosedRight(t, i); }
  }

  lemma CloseSound(t: Tree, id: int)
    requires Sound(t) && Enabled(t, Close(id))
    ensures Sound(Next(t, Close(id)))
    ensures forall a :: Models(a, t.root) ==> Satisfies(a, Negated(t.cubes[id]))
  {
    var n, leaf := Next(t, Close(id)), Negated(t.cubes[id]);
    assert ClosedRight(t, id);
    forall a | Models(a, t.root) ensures Satisfies(a, leaf) && !HoldsAll(a, t.cubes[id]) {
      NodeIsCube(t, id, a);
      NegatedHolds(a, t.cubes[id]);
    }
    forall a | Models(a, t.root) ensures Models(a, n.queue) { ModelsAppend(a, t.queue, leaf); }
    forall a ensures Covered(n, a) && Apart(n, a) {
      assert Covered(t, a) && Apart(t, a);
      assert forall i :: i in t.cubes ==> Cube(n, i) == Cube(t, i);
    }
    forall i | i in n.cubes ensures ClosedRight(n, i) { assert ClosedRight(t, i); }
  }

  lemma TakeLeafSound(t: Tree)
    requires Sound(t) && Enabled(t, TakeLeaf)
    ensures Sound(Next(t, TakeLeaf))
  {
    var n := Next(t, TakeLeaf);
    forall a | Models(a, t.root) ensures Models(a, n.queue) && Models(a, n.taken) {
      assert Satisfies(a, t.queue[0]);
      ModelsAppend(a, t.taken, t.queue[0]);
      forall i | 0 <= i < |n.queue| ensures Satisfies(a, n.queue[i]) { assert n.queue[i] == t.queue[i + 1]; }
    }
    SameCubes(t, n);
  }

  /** What matters of the nodes is unchanged. */
  lemma SameCubes(t: Tree, n: Tree)
    requires Sound(t) && WellFormed(n) && n.cubes == t.cubes && n.alive == t.alive && n.pending == t.pending
    requires n.root == t.root && n.res == t.res && n.refuted == t.refuted
    ensures Partition(n) && forall i :: i in n.cubes ==> ClosedRight(n, i)
  {
    forall a ensures Covered(n, a) && Apart(n, a) {
      assert Covered(t, a) && Apart(t, a);
      assert forall i :: i in t.cubes ==> Cube(n, i) == Cube(t, i);
    }
    forall i | i in n.cubes ensures ClosedRight(n, i) { assert ClosedRight(t, i); }
  }

  /** Leaf clauses follow from the formula, so they cost the parallel solver no models. */
  lemma ParallelIsRoot(t: Tree, a: Assignment)
    requires Sound(t)
    ensures ParallelModels(a, t) <==> Models(a, t.root)
  {}

  lemma UnitSound(t: Tree, lit: int)
    requires Sound(t) && Enabled(t, Unit(lit))
    ensures Sound(Next(t, Unit(lit)))
  {
    var n := Next(t, Unit(lit));
    forall a | Models(a, t.root) ensures HoldsAll(a, n.units) {
      ParallelIsRoot(t, a);
      assert HoldsAll(a, t.units);
    }
    SameCubes(t, n);
  }

  lemma ParallelSound(t: Tree, r: int)
    requires Sound(t) && Enabled(t, Parallel(r))
    ensures Sound(Next(t, Parallel(r)))
  {
    var n := Next(t, Parallel(r));
    forall a ensures ParallelModels(a, t) <==> Models(a, t.root) { ParallelIsRoot(t, a); }
    assert (ParallelModelSet(t)) == (RootModels(t));
    SameCubes(t, n);
  }

  lemma NextSound(t: Tree, e: Event)
    requires Sound(t) && Enabled(t, e)
    ensures Sound(Next(t, e))
  {
    hide Sound, Enabled, Next;
    match e
    case Open(id, lit, child) => OpenSound(t, id, lit, child);
    case Extend(id) => ExtendSound(t, id);
    case Answer(id, r) => AnswerSound(t, id, r);
    case Refute(id) => RefuteSound(t, id);
    case Consume(id) => ConsumeSound(t, id);
    case Close(id) => CloseSound(t, id);
    case TakeLeaf => TakeLeafSound(t);
    case Unit(lit) => UnitSound(t, lit);
    case Parallel(r) => ParallelSound(t, r);
  }

  // ----- over every run ------------------------------------------------------------

  /** What the solver may conclude from where it stands. */
  ghost predicate Conclusions(t: Tree) {
    && (t.alive == {} ==> Unsatisfiable(t.root))
    && t.parallel in {0, 10, 20}
    && (t.parallel == 20 ==> Unsatisfiable(t.root))
    && (t.parallel == 10 || (exists id :: id in t.res && t.res[id] == 10) ==> !Unsatisfiable(t.root))
    && (forall c :: c in t.queue || c in t.taken ==> forall a :: Models(a, t.root) ==> Satisfies(a, c))
    && (forall l :: l in t.units ==> Entails(t.root, l))
  }

  lemma SoundConcludes(t: Tree)
    requires Sound(t)
    ensures Conclusions(t)
  {
    if t.alive == {} {
      forall a ensures !Models(a, t.root) {
        assert Covered(t, a);
        var id :| id in t.cubes && HoldsAll(a, Cube(t, id));
        assert ClosedRight(t, id);
      }
    }
    if t.parallel == 20 {
      forall a ensures !Models(a, t.root) { assert a !in RootModels(t); }
    }
    if t.parallel == 10 {
      var a :| a in RootModels(t);
      assert Models(a, t.root);
    }
    forall id | id in t.res && t.res[id] == 10 ensures !Unsatisfiable(t.root) { assert ClosedRight(t, id); }
    forall c, a | (c in t.queue || c in t.taken) && Models(a, t.root) ensures Satisfies(a, c) {
      assert Models(a, t.queue) && Models(a, t.taken);
    }
  }

  /** A run: each event is enabled where it happens. */
  ghost predicate Legal(t: Tree, events: seq<Event>)
    decreases |events|
  {
    events == [] || (WellFormed(t) && Enabled(t, events[0]) && Legal(Next(t, events[0]), events[1..]))
  }

  ghost function Run(t: Tree, events: seq<Event>): (r: Tree)
    requires Legal(t, events)
    ensures r.root == t.root
    decreases |events|
  {
    if events == [] then t else Run(Next(t, events[0]), events[1..])
  }

  lemma {:induction false} RunSound(t: Tree, events: seq<Event>)
    requires Sound(t) && Legal(t, events)
    ensures Sound(Run(t, events))
    decreases |events|
  {
    if events != [] {
      NextSound(t, events[0]);
      RunSound(Next(t, events[0]), events[1..]);
    }
  }

  /** After any sequence of splits, answers, closings and exchanges: the cubes
      partition all assignments, and every conclusion is right. */
  lemma EveryRun(root: Formula, events: seq<Event>)
    requires Legal(Start(root), events)
    ensures var t := Run(Start(root), events);
            Conclusions(t) && Partition(t) && t.root == root
  {
    StartSound(root);
    RunSound(Start(root), events);
    SoundConcludes(Run(Start(root), events));
  }
}
