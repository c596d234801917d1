/** The data structures of the cube-and-conquer scheduler, changed in place:
    the array of open nodes, the linked list of leaf clauses, and the rounds. */
module Scheduler {
  import opened Cnf
  import opened CubeTree
  import opened Rounds

  // ----- the leaf clauses on their way to the parallel solver ------------------

  class Leaf {
    var lits: seq<int>
    var next: Leaf?
    var prev: Leaf?

    constructor (lits: seq<int>)
      ensures this.lits == lits && next == null && prev == null
    {
      this.lits, next, prev := lits, null, null;
    }
  }

  class LeafList {
    var first: Leaf?
    var last: Leaf?
    ghost var contents: seq<Leaf>

    ghost function Repr(): set<Leaf>
      reads `contents
    {
      set l | l in contents
    }

    ghost predicate Valid()
      reads this, contents
    {
      && (first == if contents == [] then null else contents[0])
      && (last == if contents == [] then null else contents[|contents| - 1])
      && (forall i :: 0 <= i < |contents| ==> Linked(i))
      && (forall i, j :: 0 <= i < j < |contents| ==> contents[i] != contents[j])
    }

    ghost predicate Linked(i: nat)
      requires i < |contents|
      reads `contents, contents
    {
      && (contents[i].next == if i + 1 < |contents| then contents[i + 1] else null)
      && (contents[i].prev == if i > 0 then contents[i - 1] else null)
    }

    ghost function Clauses(): (r: Formula)
      reads `contents, contents
      ensures |r| == |contents|
    {
      var c := contents;
      seq(|c|, i requires 0 <= i < |c| reads c => c[i].lits)
    }

    constructor ()
      ensures Valid() && contents == []
    {
      first, last, contents := null, null, [];
    }

    method EnqLeaf(leaf: Leaf)
      requires Valid() && leaf !in contents && leaf.next == null
      modifies this, Repr(), leaf
      ensures Valid() && Repr() == old(Repr()) + {leaf} && contents == old(contents) + [leaf] && Clauses() == old(Clauses()) + [old(leaf.lits)]
    {
      if last != null { last.next := leaf; } else { first := leaf; }
      leaf.prev := last;
      last := leaf;
      contents := contents + [leaf];
      forall i | 0 <= i < |contents| ensures Linked(i) {
        assert i < |old(contents)| ==> old(Linked(i));
      }
    }

    method DeqLeaf() returns (res: Leaf?)
      requires Valid()
      modifies this, Repr()
      ensures Valid() && (res == null <==> old(contents) == [])
      ensures res != null ==> old(contents) == [res] + contents && old(Clauses()) == [res.lits] + Clauses()
      ensures res == null ==> contents == []
      ensures Repr() <= old(Repr())
    {
      res := first;
      if res != null {
        assert Linked(0);
        if res.next != null { res.next.prev := null; } else { last := null; }
        first := res.next;
        contents := contents[1..];
        forall i | 0 <= i < |contents| ensures Linked(i) {
          assert old(Linked(i + 1));
        }
      }
    }
  }

  // ----- the open nodes ------------------------------------------------------------

  class Node {
    const id: int
    const depth: nat
    var pos: nat
    var lookahead: int
    var res: int
    var inconsistent: bool      // what its solver instance reports
    var consumed: nat
    var cube: seq<int>

    constructor (id: int, depth: nat, pos: nat, cube: seq<int>, consumed: nat)
      ensures this.id == id && this.depth == depth && this.pos == pos && this.cube == cube && this.consumed == consumed
      ensures lookahead == 0 && res == 0 && !inconsistent
    {
      this.id, this.depth, this.pos, this.cube, this.consumed := id, depth, pos, cube, consumed;
      lookahead, res, inconsistent := 0, 0, false;
    }

    /** The node is where and what the tree says. */
    ghost predicate Mirrors(t: Tree)
      reads `cube, `res, `consumed, `inconsistent
    {
      && id in t.alive && id in t.cubes && id in t.res && id in t.consumed
      && cube == t.cubes[id] && res == t.res[id] && consumed == t.consumed[id] && (inconsistent <==> id in t.refuted)
    }
  }

  /** Closing one node leaves the others as they are. */
  lemma MirrorsRest(n: Node, t: Tree, id: int)
    requires n.Mirrors(t) && n.id != id && id in t.cubes
    ensures n.Mirrors(t.(alive := t.alive - {id}, queue := t.queue + [Negated(t.cubes[id])]))
  {}

  lemma MirrorsIn(n: Node, t: Tree)
    requires n.Mirrors(t)
    ensures n.id in t.alive && n.id in t.cubes && n.id in t.res && n.cube == t.cubes[n.id] && n.res == t.res[n.id]
    ensures (n.inconsistent <==> n.id in t.refuted) && n.id in t.consumed && n.consumed == t.consumed[n.id]
  {}

  ghost predicate HasNode(nodes: seq<Node>, id: int) {
    exists i :: 0 <= i < |nodes| && nodes[i].id == id
  }

  lemma HasNodeAppend(nodes: seq<Node>, node: Node, id: int)
    ensures HasNode(nodes + [node], id) <==> HasNode(nodes, id) || id == node.id
  {
    if HasNode(nodes, id) {
      var i :| 0 <= i < |nodes| && nodes[i].id == id;
      assert (nodes + [node])[i].id == id;
    }
    assert (nodes + [node])[|nodes|] == node;
  }

  ghost function IdSet(nodes: seq<Node>): (r: set<int>)
    ensures forall id :: id in r <==> HasNode(nodes, id)
  {
    set i | 0 <= i < |nodes| :: nodes[i].id
  }

  lemma {:induction false} IdCount(nodes: seq<Node>)
    requires forall i, j :: 0 <= i < j < |nodes| ==> nodes[i].id != nodes[j].id
    ensures |IdSet(nodes)| == |nodes|
  {
    if nodes != [] {
      var front, n := nodes[..|nodes| - 1], nodes[|nodes| - 1];
      IdCount(front);
      assert nodes == front + [n];
      forall id ensures HasNode(nodes, id) <==> HasNode(front, id) || id == n.id { HasNodeAppend(front, n, id); }
      assert IdSet(nodes) == IdSet(front) + {n.id};
    } else {
      forall id ensures id !in IdSet([]) {}
      assert IdSet([]) == {};
    }
  }

  /** The last node takes the place of the one that goes. */
  function Without(nodes: seq<Node>, pos: nat): (r: seq<Node>)
    requires pos < |nodes|
    ensures |r| == |nodes| - 1
    ensures forall i :: 0 <= i < |r| ==> r[i] == if i == pos then nodes[|r|] else nodes[i]
  {
    var last := |nodes| - 1;
    if pos < last then nodes[..last][pos := nodes[last]] else nodes[..last]
  }

  lemma HasNodeWithout(nodes: seq<Node>, pos: nat, id: int)
    requires pos < |nodes| && HasNode(nodes, id) && id != nodes[pos].id
    ensures HasNode(Without(nodes, pos), id)
  {
    var i :| 0 <= i < |nodes| && nodes[i].id == id;
    var r := Without(nodes, pos);
    assert r[if i == |r| then pos else i].id == id;
  }

  class Conquer {
    const leafs: LeafList
    const noparallel: bool
    var nodes: seq<Node>
    var ids: int
    var units: seq<int>
    var parallelRes: int
    ghost var tree: Tree

    ghost function NodeSet(): set<Node>
      reads `nodes
    {
      set n | n in nodes
    }

    ghost predicate Valid()
      reads this, nodes, leafs, leafs.contents
    {
      && Sound(tree) && tree.pending == map[] && tree.units == units && tree.parallel == parallelRes
      && leafs.Valid() && leafs.Clauses() == tree.queue && NodesValid(tree) && (noparallel ==> parallelRes == 0)
    }

    /** The array holds the open nodes, each at its position. */
    ghost predicate NodesValid(t: Tree)
      reads `nodes, `ids, nodes
    {
      && (forall id :: id in t.cubes ==> id < ids)
      && (forall i :: 0 <= i < |nodes| ==> nodes[i].pos == i && nodes[i].Mirrors(t))
      && (forall i, j :: 0 <= i < j < |nodes| ==> nodes[i].id != nodes[j].id)
      && (forall id :: id in t.alive ==> HasNode(nodes, id))
    }

    lemma SameNodes(t: Tree, n: Tree)
      requires NodesValid(t) && n.cubes == t.cubes && n.alive == t.alive && n.res == t.res
      requires n.consumed == t.consumed && n.refuted == t.refuted
      ensures NodesValid(n)
    {}

    constructor (ghost root: Formula, noparallel: bool)
      ensures Valid() && tree == Start(root) && fresh(leafs) && fresh(leafs.Repr()) && fresh(NodeSet())
      ensures this.noparallel == noparallel
    {
      this.noparallel := noparallel;
      leafs := new LeafList();
      var node := new Node(0, 0, 0, [], 0);
      nodes, ids, units, parallelRes, tree := [node], 1, [], 0, Start(root);
      new;
      StartSound(root);
      HasNodeAppend([], node, 0);
      assert nodes == [] + [node];
    }

    /** Opens a child with the negated lookahead literal, and extends the node by the literal. */
    method SplitNode(pos: nat)
      requires Valid() && pos < |nodes| && nodes[pos].lookahead != 0
      modifies `nodes, `ids, `tree, (nodes[pos] as Node)`cube
      ensures |nodes| == old(|nodes|) + 1 && nodes[|nodes| - 1].id == old(ids) && ids == old(ids) + 1
      ensures nodes[|nodes| - 1].depth == nodes[pos].depth + 1
      ensures Valid() && old(nodes) == nodes[..|nodes| - 1] && fresh(nodes[|nodes| - 1])
      ensures tree == SplitInto(old(tree), nodes[pos].id, old(nodes[pos].lookahead), nodes[|nodes| - 1].id)
      ensures tree.root == old(tree.root) && tree.taken == old(tree.taken)
    {
      hide Sound, LeafList.Valid, Next, Enabled, HasNode, Node.Mirrors, NodesValid, SplitInto, LeafList.Clauses;
      var node := nodes[pos];
      var decision := node.lookahead;
      ghost var t, was := tree, nodes;
      NodeAt(pos);
      SplitOthers(pos, decision);
      SplitTree(t, node.id, decision, ids);
      SplitParts(t, node.id, decision, ids);
      var child := new Node(ids, node.depth + 1, |nodes|, node.cube + [-decision], node.consumed);
      ids, nodes := ids + 1, nodes + [child];
      node.cube := node.cube + [decision];
      tree := SplitInto(t, node.id, decision, child.id);
      SplitMirrors(t, node, child, decision);
      NodesSplit(was, child, t, node, decision);
    }

    /** What stays true of the other nodes when one is split. */
    lemma SplitOthers(pos: nat, lit: int)
      requires NodesValid(tree) && pos < |nodes| && nodes[pos].id in tree.cubes && nodes[pos].id in tree.consumed
      ensures forall i :: 0 <= i < |nodes| ==> nodes[i].pos == i && nodes[i].id < ids
      ensures forall i :: 0 <= i < |nodes| && i != pos ==> nodes[i].Mirrors(SplitInto(tree, nodes[pos].id, lit, ids))
      ensures forall i, j :: 0 <= i < j < |nodes| ==> nodes[i].id != nodes[j].id
      ensures (forall id :: id in tree.cubes ==> id < ids) && (forall id :: id in tree.alive ==> HasNode(nodes, id))
    {
      hide HasNode;
    }

    lemma SplitMirrors(t: Tree, node: Node, child: Node, lit: int)
      requires node.id in t.cubes && node.id in t.res && node.id in t.consumed && node.id in t.alive && child.id != node.id
      requires node.cube == t.cubes[node.id] + [lit] && node.res == t.res[node.id] && node.consumed == t.consumed[node.id]
      requires child.cube == t.cubes[node.id] + [-lit] && child.res == 0 && child.consumed == node.consumed
      requires (node.inconsistent <==> node.id in t.refuted) && !child.inconsistent && child.id !in t.refuted
      ensures node.Mirrors(SplitInto(t, node.id, lit, child.id)) && child.Mirrors(SplitInto(t, node.id, lit, child.id))
    {}

    lemma NodesSplit(was: seq<Node>, child: Node, t: Tree, node: Node, lit: int)
      requires nodes == was + [child] && node in was && child.pos == |was| && child.id == ids - 1
      requires node.id in t.cubes && node.id in t.consumed && tree == SplitInto(t, node.id, lit, child.id)
      requires node.Mirrors(tree) && child.Mirrors(tree)
      requires forall i :: 0 <= i < |was| ==> was[i].pos == i && was[i].id < child.id && was[i].Mirrors(tree)
      requires forall i, j :: 0 <= i < j < |was| ==> was[i].id != was[j].id
      requires (forall id :: id in t.cubes ==> id < child.id) && (forall id :: id in t.alive ==> HasNode(was, id))
      ensures NodesValid(tree)
    {
      hide Node.Mirrors, HasNode;
      forall id | id in tree.alive ensures HasNode(nodes, id) { HasNodeAppend(was, child, id); }
    }

    /** A simplification or search of a node ends with an answer that is right for its solver. */
    method AnswerNode(pos: nat, r: int)
      requires Valid() && pos < |nodes|
      requires Enabled(tree, Answer(nodes[pos].id, r))
      modifies `tree, NodeSet()
      ensures Valid() && nodes[pos].res == r && old(Enabled(tree, Answer(nodes[pos].id, r)))
      ensures tree == Next(old(tree), Answer(nodes[pos].id, r))
      ensures tree.root == old(tree.root) && tree.taken == old(tree.taken)
    {
      hide Sound, LeafList.Valid, Enabled, HasNode, AnswerIsRight;
      var node := nodes[pos];
      assert node.Mirrors(tree);
      SoundParts(tree);
      NextSound(tree, Answer(node.id, r));
      node.res := r;
      tree := Next(tree, Answer(node.id, r));
    }

    /** The solver of a node reports an inconsistency. */
    method RefuteNode(pos: nat)
      requires Valid() && pos < |nodes| && Enabled(tree, Refute(nodes[pos].id))
      modifies `tree, NodeSet()
      ensures Valid() && nodes[pos].inconsistent && old(Enabled(tree, Refute(nodes[pos].id)))
      ensures tree == Next(old(tree), Refute(nodes[pos].id))
      ensures tree.root == old(tree.root) && tree.taken == old(tree.taken)
    {
      hide Sound, LeafList.Valid, Enabled, HasNode, AnswerIsRight;
      var node := nodes[pos];
      assert node.Mirrors(tree);
      SoundParts(tree);
      NextSound(tree, Refute(node.id));
      node.inconsistent := true;
      tree := Next(tree, Refute(node.id));
    }

    /** A node takes over the units it has not seen; they follow from the root formula. */
    method ConsumeUnits(pos: nat) returns (from: nat, to: nat)
      requires Valid() && pos < |nodes|
      modifies `tree, NodeSet()
      ensures Valid() && from == old(nodes[pos].consumed) && to == nodes[pos].consumed == |units| && from <= to
      ensures forall k :: from <= k < to ==> Entails(tree.root, units[k])
      ensures old(Enabled(tree, Consume(nodes[pos].id))) && tree == Next(old(tree), Consume(nodes[pos].id))
      ensures tree.root == old(tree.root) && tree.taken == old(tree.taken)
    {
      hide Sound, LeafList.Valid, HasNode;
      var node := nodes[pos];
      assert node.Mirrors(tree);
      SoundParts(tree);
      NextSound(tree, Consume(node.id));
      from, to := node.consumed, |units|;
      node.consumed := to;
      tree := Next(tree, Consume(node.id));
    }

    /** The parallel solver learns a unit. */
    method ProduceUnit(lit: int)
      requires Valid() && Enabled(tree, Unit(lit))
      modifies `units, `tree
      ensures Valid() && units == old(units) + [lit] && Entails(tree.root, lit)
      ensures old(Enabled(tree, Unit(lit))) && tree == Next(old(tree), Unit(lit))
      ensures tree.root == old(tree.root) && tree.taken == old(tree.taken)
    {
      hide Sound, LeafList.Valid, Enabled, HasNode;
      SoundParts(tree);
      NextSound(tree, Unit(lit));
      units := units + [lit];
      tree := Next(tree, Unit(lit));
      SoundParts(tree);
      assert lit in tree.units;
    }

    /** The parallel solver receives the oldest leaf clause, which follows from the root formula. */
    method ConsumeCls() returns (lits: seq<int>, none: bool)
      requires Valid()
      modifies `tree, leafs, leafs.Repr()
      ensures Valid() && (none <==> old(tree.queue) == [])
      ensures none ==> tree == old(tree)
      ensures leafs.Repr() <= old(leafs.Repr())
      ensures tree.root == old(tree.root) && tree.taken == if none then old(tree.taken) else old(tree.taken) + [lits]
      ensures !none ==> lits == old(tree).queue[0] && old(Enabled(tree, TakeLeaf)) && tree == Next(old(tree), TakeLeaf)
      ensures !none ==> forall a :: Models(a, tree.root) ==> Satisfies(a, lits)
    {
      hide Sound, LeafList.Valid, NodesValid, LeafList.Clauses, Enabled, Next;
      if tree.queue != [] { TakeTree(tree); }
      var leaf := leafs.DeqLeaf();
      none := leaf == null;
      lits := if leaf == null then [] else leaf.lits;
      if leaf != null {
        SameNodes(tree, Next(tree, TakeLeaf));
        tree := Next(tree, TakeLeaf);
      }
    }

    lemma TakeTree(t: Tree)
      requires Sound(t) && t.queue != []
      ensures WellFormed(t) && Enabled(t, TakeLeaf) && Sound(Next(t, TakeLeaf))
      ensures Next(t, TakeLeaf) == t.(queue := t.queue[1..], taken := t.taken + [t.queue[0]])
      ensures forall a :: Models(a, t.root) ==> Satisfies(a, t.queue[0])
    {
      NextSound(t, TakeLeaf);
      SoundParts(t);
      assert t.queue[0] in t.queue;
    }

    /** The parallel solver is done. */
    method RunParallel(r: int)
      requires Valid() && !noparallel && Enabled(tree, Parallel(r))
      modifies `parallelRes, `tree
      ensures Valid() && parallelRes == r
      ensures old(Enabled(tree, Parallel(r))) && tree == Next(old(tree), Parallel(r))
      ensures tree.root == old(tree.root) && tree.taken == old(tree.taken)
    {
      hide Sound, LeafList.Valid, Enabled, HasNode, AnswerIsRight;
      SoundParts(tree);
      NextSound(tree, Parallel(r));
      parallelRes := r;
      tree := Next(tree, Parallel(r));
    }

    /** The negated cube of a node becomes a leaf clause. */
    method NewLeaf(node: Node) returns (leaf: Leaf)
      modifies node`cube
      ensures fresh(leaf) && leaf.lits == Negated(old(node.cube)) && leaf.next == null && leaf.prev == null && node.cube == []
    {
      leaf := new Leaf(Negated(node.cube));
      node.cube := [];
    }

    /** Takes a node out of the array. */
    method DelNode(node: Node)
      requires node.pos < |nodes| && nodes[node.pos] == node && nodes[|nodes| - 1].pos == |nodes| - 1
      modifies `nodes, (nodes[|nodes| - 1] as Node)`pos
      ensures nodes == Without(old(nodes), old(node.pos))
      ensures old(nodes)[|nodes|].pos == old(node.pos)
    {
      var lastpos := |nodes| - 1;
      var last := nodes[lastpos];
      nodes := Without(nodes, node.pos);
      if node != last {
        last.pos := node.pos;
      }
    }

    /** Closes a node at a flush. */
    method CloseNode(pos: nat) returns (ghost leaf: Leaf)
      requires Valid() && pos < |nodes| && Closing(nodes[pos].res, nodes[pos].inconsistent)
      modifies `nodes, `tree, NodeSet(), leafs, leafs.Repr()
      ensures Valid() && nodes == Without(old(nodes), pos)
      ensures fresh(leaf) && leafs.Repr() == old(leafs.Repr()) + {leaf} && NodeSet() <= old(NodeSet())
      ensures var e := Close(old(nodes)[pos].id); old(Enabled(tree, e)) && tree == Next(old(tree), e)
    {
      hide Sound, LeafList.Valid, Enabled, HasNode, Next, LeafList.Clauses, Closing, Node.Mirrors, NodesValid, Without;
      var node := nodes[pos];
      ghost var t, was := tree, nodes;
      NodeAt(pos);
      CloseTree(tree, node.id);
      OthersMirror(pos);
      var l := NewLeaf(node);
      leaf := l;
      leafs.EnqLeaf(l);
      DelNode(node);
      tree := Next(t, Close(node.id));
      NodesClosed(was, pos, t);
    }

    lemma NodeAt(pos: nat)
      requires NodesValid(tree) && pos < |nodes|
      ensures nodes[pos].pos == pos && nodes[|nodes| - 1].pos == |nodes| - 1
      ensures var id := nodes[pos].id; id in tree.alive && id in tree.cubes && id in tree.res
      ensures var id := nodes[pos].id;
              nodes[pos].cube == tree.cubes[id] && nodes[pos].res == tree.res[id] && (nodes[pos].inconsistent <==> id in tree.refuted)
      ensures var id := nodes[pos].id; id in tree.consumed && nodes[pos].consumed == tree.consumed[id]
    {
      MirrorsIn(nodes[pos], tree);
    }

    /** The tree after node id is closed. */
    ghost function Closed(t: Tree, id: int): Tree
      requires id in t.cubes
    {
      t.(alive := t.alive - {id}, queue := t.queue + [Negated(t.cubes[id])])
    }

    /** What stays true of the other nodes when one is closed. */
    lemma OthersMirror(pos: nat)
      requires NodesValid(tree) && pos < |nodes| && nodes[pos].id in tree.cubes
      ensures forall i :: 0 <= i < |nodes| && i != pos ==> nodes[i].pos == i && nodes[i].Mirrors(Closed(tree, nodes[pos].id))
      ensures forall i, j :: 0 <= i < j < |nodes| ==> nodes[i].id != nodes[j].id
      ensures (forall id :: id in tree.cubes ==> id < ids) && (forall id :: id in tree.alive ==> HasNode(nodes, id))
    {
      hide Node.Mirrors, HasNode;
      forall i | 0 <= i < |nodes| && i != pos ensures nodes[i].Mirrors(Closed(tree, nodes[pos].id)) {
        MirrorsRest(nodes[i], tree, nodes[pos].id);
      }
    }

    lemma NodesClosed(was: seq<Node>, pos: nat, t: Tree)
      requires pos < |was| && nodes == Without(was, pos) && was[pos].id in t.cubes && tree == Closed(t, was[pos].id)
      requires forall i :: 0 <= i < |was| && i != pos ==>
                 was[i].pos == (if i == |was| - 1 then pos else i) && was[i].Mirrors(tree)
      requires forall i, j :: 0 <= i < j < |was| ==> was[i].id != was[j].id
      requires (forall id :: id in t.cubes ==> id < ids) && (forall id :: id in t.alive ==> HasNode(was, id))
      ensures NodesValid(tree)
    {
      hide Node.Mirrors, HasNode, Without;
      forall id | id in tree.alive ensures HasNode(nodes, id) { HasNodeWithout(was, pos, id); }
    }

    lemma CloseTree(t: Tree, id: int)
      requires Sound(t) && t.pending == map[] && id in t.alive && Closing(t.res[id], id in t.refuted)
      ensures WellFormed(t) && Enabled(t, Close(id)) && Sound(Next(t, Close(id)))
      ensures Next(t, Close(id)) == t.(alive := t.alive - {id}, queue := t.queue + [Negated(t.cubes[id])])
    {
      NextSound(t, Close(id));
    }

    /** Closes every node that has no solution, and tells whether none is left. */
    method Flush() returns (res: int)
      requires Valid()
      modifies `nodes, `tree, NodeSet(), leafs, leafs.Repr()
      ensures Valid() && (res == 20 <==> nodes == []) && (res == 0 || res == 20)
      ensures NodeSet() <= old(NodeSet()) && fresh(leafs.Repr() - old(leafs.Repr()))
      ensures Flushed(old(tree), tree) && res == Emptied(tree) && |tree.alive| == |nodes|
      ensures tree.root == old(tree.root) && tree.taken == old(tree.taken) && parallelRes == old(parallelRes)
      ensures res == 20 ==> Unsatisfiable(tree.root)
    {
      hide Valid, Next, Enabled, Flushing, ToClose, NodeSet, Flushed;
      ghost var t := tree;
      ghost var closed: seq<int> := [];
      FlushStart();
      var i := 0;
      while i < |nodes|
        invariant Valid() && 0 <= i <= |nodes| <= |old(nodes)| && parallelRes == old(parallelRes)
        invariant NodeSet() <= old(NodeSet()) && fresh(leafs.Repr() - old(leafs.Repr()))
        invariant forall j :: 0 <= j < i ==> nodes[j].id !in ToClose(t)
        invariant Flushing(t, tree, closed)
        decreases |nodes| - i
      {
        var node := nodes[i];
        ghost var s := tree;
        Mirrored(t, i, closed);
        if Closing(node.res, node.inconsistent) {
          closed := closed + [node.id];
          ghost var leaf := CloseNode(i);
        } else {
          i := i + 1;
        }
      }
      FlushedAll(t, closed);
      CountAlive();
      res := if nodes == [] then 20 else 0;
    }

    lemma FlushStart()
      requires Valid()
      ensures WellFormed(tree) && Flushing(tree, tree, [])
    {
      SoundParts(tree);
      NothingClosed(tree);
    }

    /** What the flush finds at a node, and what closing it leads to. */
    lemma Mirrored(t: Tree, i: nat, closed: seq<int>)
      requires WellFormed(t) && Valid() && Flushing(t, tree, closed) && i < |nodes|
      ensures var id := nodes[i].id;
              if Closing(nodes[i].res, nodes[i].inconsistent)
              then WellFormed(tree) && Enabled(tree, Close(id)) && Flushing(t, Next(tree, Close(id)), closed + [id])
              else id !in ToClose(t)
    {
      hide Sound;
      assert nodes[i].Mirrors(tree);
      SoundParts(tree);
      if Closing(nodes[i].res, nodes[i].inconsistent) { FlushingNext(t, tree, closed, nodes[i].id); }
    }

    lemma FlushedAll(t: Tree, closed: seq<int>)
      requires WellFormed(t) && Valid() && Flushing(t, tree, closed)
      requires forall j :: 0 <= j < |nodes| ==> nodes[j].id !in ToClose(t)
      ensures Flushed(t, tree) && (nodes == [] <==> tree.alive == {})
      ensures tree.root == t.root && tree.taken == t.taken && (nodes == [] ==> Unsatisfiable(tree.root))
    {
      hide Sound;
      SoundParts(tree);
      forall id | id in tree.alive ensures id !in ToClose(t) {
        assert HasNode(nodes, id);
        var i :| 0 <= i < |nodes| && nodes[i].id == id;
      }
      if nodes != [] {
        assert nodes[0].Mirrors(tree);
      } else {
        forall id ensures id !in tree.alive { assert !HasNode(nodes, id); }
      }
    }

    /** The end of a round: no open node, a satisfied node, or the parallel solver's answer. */
    method Finish() returns (res: int)
      requires Valid()
      modifies `nodes, `tree, NodeSet(), leafs, leafs.Repr()
      ensures Valid() && tree.root == old(tree.root) && tree.taken == old(tree.taken)
      ensures NodeSet() <= old(NodeSet()) && fresh(leafs.Repr() - old(leafs.Repr()))
      ensures res == 0 || (res == 10 && !Unsatisfiable(tree.root)) || (res == 20 && Unsatisfiable(tree.root))
      ensures Flushed(old(tree), tree) && res == Verdict(tree)
      ensures res == 0 ==> nodes != [] && parallelRes == 0 && forall i :: 0 <= i < |nodes| ==> nodes[i].res != 10
    {
      hide Sound, LeafList.Valid, ToClose, Flushed, LeafList.Clauses;
      res := Flush();
      SoundParts(tree);
      if res != 0 { return; }
      var i := 0;
      while i < |nodes|
        invariant 0 <= i <= |nodes| && forall j :: 0 <= j < i ==> nodes[j].res != 10
      {
        if nodes[i].res == 10 { break; }
        i := i + 1;
      }
      if i < |nodes| {
        assert nodes[i].Mirrors(tree);
        res := 10;
      } else if !noparallel {
        res := parallelRes;
      }
      VerdictOf(i);
    }

    /** The verdict of a tree is read off its nodes. */
    lemma VerdictOf(i: nat)
      requires Valid() && i <= |nodes| && nodes != [] && (i < |nodes| ==> nodes[i].res == 10)
      requires i == |nodes| ==> forall j :: 0 <= j < |nodes| ==> nodes[j].res != 10
      ensures Verdict(tree) == if i < |nodes| then 10 else parallelRes
    {
      hide Sound, LeafList.Valid, LeafList.Clauses;
      assert nodes[0].Mirrors(tree);
      if i < |nodes| {
        assert nodes[i].Mirrors(tree);
      } else {
        forall id | id in tree.alive ensures id !in tree.res || tree.res[id] != 10 {
          assert HasNode(nodes, id);
          var j :| 0 <= j < |nodes| && nodes[j].id == id;
          assert nodes[j].Mirrors(tree);
        }
      }
    }

    /** There are as many nodes as open cubes. */
    lemma CountAlive()
      requires Valid()
      ensures |tree.alive| == |nodes| && forall id :: id in tree.alive <==> HasNode(nodes, id)
    {
      hide Sound, LeafList.Valid, LeafList.Clauses;
      forall id ensures id in tree.alive <==> HasNode(nodes, id) {
        if HasNode(nodes, id) {
          var j :| 0 <= j < |nodes| && nodes[j].id == id;
          assert nodes[j].Mirrors(tree);
        }
      }
      IdCount(nodes);
      assert tree.alive == IdSet(nodes) by {
        forall id ensures id in tree.alive <==> id in IdSet(nodes) {}
      }
    }

    // ----- the rounds ----------------------------------------------------------------------

    /** One node takes over the units, and its solver works on it. */
    method WorkOn(o: Solvers, phase: nat, pos: nat)
      requires Valid() && Trusted(o, tree.root) && pos < |nodes|
      modifies `tree, NodeSet()
      ensures Valid() && tree.root == old(tree.root) && tree.taken == old(tree.taken)
      ensures nodes[pos].id in old(tree.cubes) && tree == WorkedOne(o, phase, old(tree), nodes[pos].id)
    {
      hide Valid, Trusted, NodeSet, Enabled;
      ghost var t := tree;
      WorkStart(pos);
      var from, to := ConsumeUnits(pos);
      var node := nodes[pos];
      NodeWork(o, phase, pos);
      var us := units[..node.consumed];
      assert us == t.units;
      if o.inconsistent(phase, node.cube, us) { RefuteNode(pos); } else { AnswerNode(pos, o.answer(phase, node.cube, us)); }
    }

    lemma WorkStart(pos: nat)
      requires Valid() && pos < |nodes|
      ensures WellFormed(tree) && nodes[pos].id in tree.cubes && nodes[pos].cube == tree.cubes[nodes[pos].id] && tree.units == units
      ensures nodes[pos].id in tree.alive && (nodes[pos].inconsistent <==> nodes[pos].id in tree.refuted)
    {
      hide Sound, LeafList.Valid, HasNode, LeafList.Clauses;
      SoundParts(tree);
      assert nodes[pos].Mirrors(tree);
    }

    lemma NodeWork(o: Solvers, round: nat, pos: nat)
      requires Valid() && Trusted(o, tree.root) && pos < |nodes|
      ensures WellFormed(tree) && nodes[pos].consumed <= |units| && nodes[pos].id in tree.cubes
      ensures nodes[pos].cube == tree.cubes[nodes[pos].id]
      ensures var node := nodes[pos]; var us := units[..node.consumed];
              && Enabled(tree, Answer(node.id, o.answer(round, node.cube, us)))
              && (o.inconsistent(round, node.cube, us) ==> Enabled(tree, Refute(node.id)))
    {
      hide Sound;
      SoundParts(tree);
      assert nodes[pos].Mirrors(tree);
      var node := nodes[pos];
      assert NodeModelSet(tree, node.id) == ModelsUnder(tree.root, node.cube, units[..node.consumed]);
    }

    /** As many nodes as the limit allows are simplified or searched, but no inconsistent ones. */
    method WorkAll(o: Solvers, phase: nat, limit: nat)
      requires Valid() && Trusted(o, tree.root)
      modifies `tree, NodeSet()
      ensures Valid() && tree.root == old(tree.root) && tree.taken == old(tree.taken)
      ensures Works(o, phase, limit, old(tree), tree)
    {
      hide Valid, Trusted, NodeSet, Worked, WorkedOne, Works, WorkedSo;
      ghost var t := tree;
      ghost var w: set<int> := {};
      var i, jobs := 0, 0;
      WorkedNone(o, phase);
      while i < |nodes| && jobs < limit
        invariant Valid() && tree.root == old(tree.root) && tree.taken == old(tree.taken)
        invariant 0 <= i <= |nodes| && 0 <= jobs <= limit && WorkedSo(o, phase, t, w, i, jobs)
        decreases |nodes| - i
      {
        WorkedMore(o, phase, t, w, i, jobs);
        if !nodes[i].inconsistent {
          WorkOn(o, phase, i);
          WorkedThis(o, phase, t, w, i, jobs);
          w := w + {nodes[i].id};
          jobs := jobs + 1;
        }
        i := i + 1;
      }
      WorkedEnough(o, phase, t, w, i, jobs, limit);
    }

    /** Of the first i nodes, those in w were worked on, which are all but the inconsistent ones. */
    ghost predicate WorkedSo(o: Solvers, phase: nat, t: Tree, w: set<int>, i: nat, jobs: nat)
      reads `nodes, `tree
    {
      && WellFormed(t) && w <= Ready(t) && |w| == jobs && tree == Worked(o, phase, t, w) && i <= |nodes|
      && (forall id :: id in w ==> HasNode(nodes[..i], id))
      && (forall j :: 0 <= j < i && nodes[j].id in Ready(t) ==> nodes[j].id in w)
    }

    lemma WorkedNone(o: Solvers, phase: nat)
      requires Valid()
      ensures WorkedSo(o, phase, tree, {}, 0, 0)
    {
      hide Sound;
      SoundParts(tree);
      NothingWorked(o, phase, tree);
    }

    /** The next node was not worked on yet, and stays so only when it is inconsistent. */
    lemma WorkedMore(o: Solvers, phase: nat, t: Tree, w: set<int>, i: nat, jobs: nat)
      requires Valid() && i < |nodes| && WorkedSo(o, phase, t, w, i, jobs)
      ensures WellFormed(t) && w <= t.cubes.Keys && nodes[i].id in t.cubes && nodes[i].id in tree.cubes && nodes[i].id !in w
      ensures tree == Worked(o, phase, t, w) && w <= Ready(t) && |w| == jobs
      ensures (forall id :: id in w ==> HasNode(nodes[..i], id))
      ensures (forall j :: 0 <= j < i && nodes[j].id in Ready(t) ==> nodes[j].id in w)
      ensures if nodes[i].inconsistent then WorkedSo(o, phase, t, w, i + 1, jobs) else nodes[i].id in Ready(t)
    {
      hide Sound, LeafList.Valid, LeafList.Clauses;
      WorkStart(i);
      var id := nodes[i].id;
      assert id !in w by {
        forall j | 0 <= j < i ensures nodes[..i][j].id != id {}
        assert !HasNode(nodes[..i], id);
      }
      forall x | x in w ensures HasNode(nodes[..i + 1], x) {
        var j :| 0 <= j < |nodes[..i]| && nodes[..i][j].id == x;
        assert nodes[..i + 1][j].id == x;
      }
    }

    lemma WorkedThis(o: Solvers, phase: nat, t: Tree, w: set<int>, i: nat, jobs: nat)
      requires i < |nodes| && WellFormed(t) && w <= Ready(t) && |w| == jobs && nodes[i].id in Ready(t) && nodes[i].id !in w
      requires nodes[i].id in Worked(o, phase, t, w).cubes && tree == WorkedOne(o, phase, Worked(o, phase, t, w), nodes[i].id)
      requires (forall id :: id in w ==> HasNode(nodes[..i], id))
      requires (forall j :: 0 <= j < i && nodes[j].id in Ready(t) ==> nodes[j].id in w)
      ensures WorkedSo(o, phase, t, w + {nodes[i].id}, i + 1, jobs + 1)
    {
      hide Worked, WorkedOne;
      WorkedNext(o, phase, t, w, nodes[i].id);
      forall x | x in w + {nodes[i].id} ensures HasNode(nodes[..i + 1], x) {
        if x == nodes[i].id {
          assert nodes[..i + 1][i].id == x;
        } else {
          var j :| 0 <= j < |nodes[..i]| && nodes[..i][j].id == x;
          assert nodes[..i + 1][j].id == x;
        }
      }
    }

    lemma WorkedEnough(o: Solvers, phase: nat, t: Tree, w: set<int>, i: nat, jobs: nat, limit: nat)
      requires Valid() && WorkedSo(o, phase, t, w, i, jobs) && (i == |nodes| || jobs == limit) && jobs <= limit
      ensures Works(o, phase, limit, t, tree)
    {
      hide Sound, LeafList.Valid, LeafList.Clauses;
      Fewer(w, Ready(t));
      if jobs < limit {
        forall id | id in Ready(t) ensures id in w {
          assert id in tree.alive;
          assert HasNode(nodes, id);
        }
        assert w == Ready(t);
      }
    }

    /** The parallel solver receives a leaf clause, learns a unit, or is done. */
    method WorkParallel(o: Solvers, phase: nat, taken: seq<Clause>) returns (received: seq<Clause>)
      requires Valid() && Trusted(o, tree.root) && taken == tree.taken
      modifies `tree, `units, `parallelRes, leafs, leafs.Repr()
      ensures Valid() && tree.root == old(tree.root) && received == tree.taken && leafs.Repr() <= old(leafs.Repr())
      ensures tree == Shared(o, phase, noparallel, old(tree))
    {
      hide Valid, Trusted, Enabled;
      received := taken;
      if noparallel { return; }
      var lits, none := ConsumeCls();
      if !none { received := received + [lits]; }
      ParallelWork(o, phase);
      var lit := o.learn(phase, received);
      if lit != 0 { ProduceUnit(lit); }
      ParallelWork(o, phase);
      var r := o.parallel(phase, received);
      if r != 0 { RunParallel(r); }
    }

    lemma ParallelWork(o: Solvers, phase: nat)
      requires Valid() && Trusted(o, tree.root)
      ensures WellFormed(tree) && Enabled(tree, Parallel(o.parallel(phase, tree.taken)))
      ensures o.learn(phase, tree.taken) != 0 ==> Enabled(tree, Unit(o.learn(phase, tree.taken)))
    {
      hide Sound;
      SoundParts(tree);
      assert ParallelModelSet(tree) == ModelsWith(tree.root, tree.taken);
      assert forall a :: ParallelModels(a, tree) <==> a in ModelsWith(tree.root, tree.taken);
    }

    /** Chooses the literals on which the nodes of the window are split; all others keep none. */
    method LookAhead(o: Solvers, phase: nat, w: Window)
      requires Valid() && 0 <= w.first <= w.last < |nodes|
      modifies nodes`lookahead
      ensures Valid()
      ensures forall i :: 0 <= i < |nodes| ==>
                nodes[i].lookahead == if w.first <= i <= w.last then o.lookahead(phase, nodes[i].cube) else 0
    {
      hide Valid;
      Places();
      for i := 0 to |nodes|
        invariant Valid()
        invariant forall j :: 0 <= j < i ==>
                    nodes[j].lookahead == if w.first <= j <= w.last then o.lookahead(phase, nodes[j].cube) else 0
      {
        SetLookahead(i, if w.first <= i <= w.last then o.lookahead(phase, nodes[i].cube) else 0);
      }
    }

    method SetLookahead(pos: nat, lit: int)
      requires Valid() && pos < |nodes|
      modifies (nodes[pos] as Node)`lookahead
      ensures Valid() && nodes[pos].lookahead == lit
    {
      hide Sound, LeafList.Valid, HasNode;
      nodes[pos].lookahead := lit;
    }

    ghost function Ids(): (r: seq<int>)
      reads `nodes
      ensures |r| == |nodes| && forall i :: 0 <= i < |nodes| ==> r[i] == nodes[i].id
    {
      var n := nodes;
      seq(|n|, i requires 0 <= i < |n| => n[i].id)
    }

    /** The literals on which the nodes are split, 0 for those that are not. */
    ghost function Lits(): (r: seq<int>)
      reads `nodes, nodes
      ensures |r| == |nodes|
    {
      var n := nodes;
      seq(|n|, i requires 0 <= i < |n| reads n => if n[i].inconsistent then 0 else n[i].lookahead)
    }

    /** Every node with a literal is split, unless its solver is inconsistent. The nodes stay in front, the children follow. */
    method Split()
      requires Valid()
      modifies `nodes, `ids, `tree, NodeSet()
      ensures Valid() && tree.root == old(tree.root) && tree.taken == old(tree.taken)
      ensures fresh(NodeSet() - old(NodeSet()))
      ensures var cuts := Picks(old(Ids()), old(Lits()), old(ids));
              tree == SplitAll(old(tree), cuts) && |nodes| == old(|nodes|) + |cuts| && nodes[..old(|nodes|)] == old(nodes)
    {
      hide Valid, SplitAll, SplitInto, Picks, Ids;
      var n := |nodes|;
      ghost var was, t, all, lits, next := nodes, tree, Ids(), Lits(), ids;
      NoPicks(t, all, lits, ids);
      for i := 0 to n
        invariant Valid() && |nodes| >= n && nodes[..n] == was && tree.root == old(tree.root) && tree.taken == old(tree.taken)
        invariant tree == SplitAll(t, Picks(all[..i], lits[..i], next))
        invariant |nodes| == n + |Picks(all[..i], lits[..i], next)| && ids == next + |Picks(all[..i], lits[..i], next)|
        invariant forall j :: i <= j < n ==> lits[j] == if nodes[j].inconsistent then 0 else nodes[j].lookahead
        invariant fresh(NodeSet() - old(NodeSet()))
      {
        assert nodes[i] == was[i];
        PickNext(all, lits, next, i);
        WorkStart(i);
        if !nodes[i].inconsistent && nodes[i].lookahead != 0 {
          OthersApart(i);
          SplitNext(t, Picks(all[..i], lits[..i], next), Cut(all[i], lits[i], ids));
          SplitNode(i);
        }
      }
      assert all[..n] == all && lits[..n] == lits;
    }

    lemma OthersApart(pos: nat)
      requires Valid() && pos < |nodes|
      ensures forall j :: 0 <= j < |nodes| && j != pos ==> nodes[j] != nodes[pos]
      ensures nodes[pos].id in tree.cubes && nodes[pos].id in tree.consumed
    {
      hide Sound, LeafList.Valid, LeafList.Clauses;
      assert nodes[pos].Mirrors(tree);
    }

    lemma Places()
      requires Valid()
      ensures forall i, j :: 0 <= i < j < |nodes| ==> nodes[i] != nodes[j]
    {}

    /** Look-ahead and split, as a step of the tree. */
    method Divide(o: Solvers, phase: nat, s: Schedule)
      requires Valid() && ValidSchedule(s) && nodes != []
      modifies `nodes, `ids, `tree, NodeSet()
      ensures Valid() && tree.root == old(tree.root) && tree.taken == old(tree.taken)
      ensures fresh(NodeSet() - old(NodeSet()))
      ensures Splits(o, phase, FirstLkhd(old(|nodes|), s.maxactive, s.branches, s.asymmetric).numtosplit, old(tree), tree)
    {
      hide Valid, Splits, SplitAll, Picks, FirstLkhd;
      var w := FirstLkhd(|nodes|, s.maxactive, s.branches, s.asymmetric);
      WindowFits(|nodes|, s.maxactive, s.branches, s.asymmetric);
      LookAhead(o, phase, w);
      PicksSplit(o, phase, w);
      Split();
    }

    /** The nodes picked from the window are those that look-ahead gave a literal. */
    lemma PicksSplit(o: Solvers, phase: nat, w: Window)
      requires Valid() && 0 <= w.first <= w.last < |nodes|
      requires forall i :: 0 <= i < |nodes| ==>
                 nodes[i].lookahead == if w.first <= i <= w.last then o.lookahead(phase, nodes[i].cube) else 0
      ensures Splits(o, phase, w.last - w.first + 1, tree, SplitAll(tree, Picks(Ids(), Lits(), ids)))
    {
      hide Valid, Picks, SplitAll, Cuts, HasNode;
      var window := nodes[w.first..w.last + 1];
      PicksCut(o, phase, w);
      WindowOpen(w);
      forall id ensures IsCut(Picks(Ids(), Lits(), ids), id) <==>
                          && id in IdSet(window) && id in Ready(tree) && id in tree.cubes && o.lookahead(phase, tree.cubes[id]) != 0
      {
        InWindow(w, o, phase, id);
      }
      hide IdSet, IsCut;
      assert CutsAre(o, phase, tree, IdSet(window), Picks(Ids(), Lits(), ids));
    }

    lemma WindowOpen(w: Window)
      requires Valid() && 0 <= w.first <= w.last < |nodes|
      ensures var chosen := IdSet(nodes[w.first..w.last + 1]); chosen <= tree.alive && |chosen| == w.last - w.first + 1
    {
      hide Sound, LeafList.Valid, LeafList.Clauses;
      var window := nodes[w.first..w.last + 1];
      IdCount(window);
      forall id | id in IdSet(window) ensures id in tree.alive {
        var i :| 0 <= i < |window| && window[i].id == id;
        assert nodes[w.first + i].Mirrors(tree);
      }
    }

    lemma PicksCut(o: Solvers, phase: nat, w: Window)
      requires Valid()
      requires forall i :: 0 <= i < |nodes| ==>
                 nodes[i].lookahead == if w.first <= i <= w.last then o.lookahead(phase, nodes[i].cube) else 0
      ensures Cuts(o, phase, tree, Picks(Ids(), Lits(), ids))
    {
      hide Sound, LeafList.Valid, LeafList.Clauses, Picks, HasNode;
      var cuts := Picks(Ids(), Lits(), ids);
      PicksMean(Ids(), Lits(), ids);
      forall k | 0 <= k < |cuts| ensures CutRight(o, phase, tree, cuts[k]) {
        var i := PickedFrom(k);
        assert nodes[i].Mirrors(tree);
      }
      forall k, m | 0 <= k < m < |cuts| ensures cuts[k].id != cuts[m].id && cuts[k].child != cuts[m].child {
        var i := PickedFrom(k);
        var j := PickedFrom(m);
      }
    }

    lemma PickedFrom(k: nat) returns (i: nat)
      requires Valid() && k < |Picks(Ids(), Lits(), ids)|
      ensures i < |nodes| && Lits()[i] != 0 && Picks(Ids(), Lits(), ids)[k] == Cut(Ids()[i], Lits()[i], ids + k)
    {
      hide Picks;
      var all, lits := Ids(), Lits();
      PicksMean(all, lits, ids);
      assert PickAt(all, lits, ids, Picks(all, lits, ids), k);
      i :| 0 <= i < |all| && lits[i] != 0 && Picks(all, lits, ids)[k] == Cut(all[i], lits[i], ids + k);
    }

    lemma InWindow(w: Window, o: Solvers, phase: nat, id: int)
      requires Valid() && 0 <= w.first <= w.last < |nodes|
      requires forall i :: 0 <= i < |nodes| ==>
                 nodes[i].lookahead == if w.first <= i <= w.last then o.lookahead(phase, nodes[i].cube) else 0
      ensures IsCut(Picks(Ids(), Lits(), ids), id) <==>
                && HasNode(nodes[w.first..w.last + 1], id) && id in Ready(tree) && id in tree.cubes
                && o.lookahead(phase, tree.cubes[id]) != 0
    {
      hide Valid, Picks, HasNode, PickAt, Distinct;
      var cuts := Picks(Ids(), Lits(), ids);
      if IsCut(cuts, id) {
        var k :| 0 <= k < |cuts| && cuts[k].id == id;
        var i := PickedFrom(k);
        HasLiteral(w, o, phase, i);
      }
      if HasNode(nodes[w.first..w.last + 1], id) && id in Ready(tree) && id in tree.cubes && o.lookahead(phase, tree.cubes[id]) != 0 {
        LiteralOf(w, o, phase, id);
      }
    }

    lemma HasLiteral(w: Window, o: Solvers, phase: nat, i: nat)
      requires Valid() && 0 <= w.first <= w.last < |nodes| && i < |nodes| && Lits()[i] != 0
      requires nodes[i].lookahead == if w.first <= i <= w.last then o.lookahead(phase, nodes[i].cube) else 0
      ensures var id := nodes[i].id;
              && HasNode(nodes[w.first..w.last + 1], id) && id in Ready(tree) && id in tree.cubes
              && o.lookahead(phase, tree.cubes[id]) != 0
    {
      hide Sound, LeafList.Valid, LeafList.Clauses;
      assert nodes[i].Mirrors(tree);
      assert nodes[w.first..w.last + 1][i - w.first] == nodes[i];
    }

    lemma LiteralOf(w: Window, o: Solvers, phase: nat, id: int)
      requires Valid() && 0 <= w.first <= w.last < |nodes|
      requires forall i :: 0 <= i < |nodes| ==>
                 nodes[i].lookahead == if w.first <= i <= w.last then o.lookahead(phase, nodes[i].cube) else 0
      requires HasNode(nodes[w.first..w.last + 1], id) && id in Ready(tree) && id in tree.cubes
      requires o.lookahead(phase, tree.cubes[id]) != 0
      ensures IsCut(Picks(Ids(), Lits(), ids), id)
    {
      hide Sound, LeafList.Valid, LeafList.Clauses, Picks;
      PicksMean(Ids(), Lits(), ids);
      var window := nodes[w.first..w.last + 1];
      var i :| 0 <= i < |window| && window[i].id == id;
      assert nodes[w.first + i].Mirrors(tree);
      assert Lits()[w.first + i] != 0 && Ids()[w.first + i] == id;
    }

    // ----- whole runs --------------------------------------------------------------------------

    /** Search, simplification, look-ahead and splitting, round after round, until
        something is decided or the budget is spent. Every answer is right, and none is
        given without the work: the log holds the rounds that decided nothing. */
    method Solve(o: Solvers, s: Schedule, budget: nat) returns (res: int, ghost log: seq<Round>)
      requires Valid() && Trusted(o, tree.root) && tree.taken == [] && ValidSchedule(s)
      modifies this, NodeSet(), leafs, leafs.Repr()
      ensures Valid() && tree.root == old(tree.root)
      ensures res == 0 || (res == 10 && !Unsatisfiable(tree.root)) || (res == 20 && Unsatisfiable(tree.root))
      ensures Ran(o, s, noparallel, budget, old(tree), log, tree, res)
    {
      hide Valid, Trusted, Unsatisfiable, Flushed, Ran, InRounds, Undecided, Decides, Emptied;
      ghost var from := tree;
      var taken: seq<Clause> := [];
      log := [];
      res := Flush();
      ghost var t := tree;
      NoRounds(o, s, noparallel, t);
      if res != 0 {
        RanAtOnce(o, s, noparallel, budget, from, t, res);
        return;
      }
      for round := 0 to budget
        invariant Valid() && tree.root == old(tree.root) && taken == tree.taken
        invariant fresh(NodeSet() - old(NodeSet())) && fresh(leafs.Repr() - old(leafs.Repr()))
        invariant InRounds(o, s, noparallel, t, log, tree) && |log| == round && nodes != [] && res == 0
      {
        ghost var u, r := tree, Blank(tree);
        res, taken, r := OneRound(o, s, round, taken);
        if res != 0 {
          RanDecided(o, s, noparallel, budget, from, t, log, u, r, tree, res);
          return;
        }
        RoundsMore(o, s, noparallel, t, log, u, r);
        log := log + [r];
      }
      RanAll(o, s, noparallel, budget, from, t, log, tree);
    }

    /** One round, up to where something is decided. */
    method OneRound(o: Solvers, s: Schedule, round: nat, taken: seq<Clause>) returns (res: int, received: seq<Clause>, ghost r: Round)
      requires Valid() && Trusted(o, tree.root) && tree.taken == taken && ValidSchedule(s) && nodes != []
      modifies this, NodeSet(), leafs, leafs.Repr()
      ensures Valid() && tree.root == old(tree.root) && received == tree.taken
      ensures fresh(NodeSet() - old(NodeSet())) && fresh(leafs.Repr() - old(leafs.Repr()))
      ensures res == 0 || (res == 10 && !Unsatisfiable(tree.root)) || (res == 20 && Unsatisfiable(tree.root))
      ensures r.start == old(tree)
      ensures if res == 0 then Undecided(o, s, noparallel, round, r) && r.end == tree && nodes != []
              else Decides(o, s, noparallel, round, r, tree, res)
    {
      hide Valid, Trusted, Unsatisfiable, Flushed, Works, Shared, Splits, Emptied, Verdict, FirstLkhd, SearchLimit, SimpLimit, ValidSchedule;
      r := Blank(tree);
      LimitsFit(s, round);
      WorkAll(o, 2 * round, SearchLimit(s, round));
      r := r.(searched := tree);
      received := WorkParallel(o, 2 * round, taken);
      r := r.(shared := tree);
      res := Finish();
      r := r.(finished := tree);
      if res != 0 { return; }
      WorkAll(o, 2 * round + 1, SimpLimit(s, round + 1));
      r := r.(simplified := tree);
      res := Flush();
      r := r.(flushed := tree);
      if res != 0 { return; }
      EmptiedNot(tree);
      Divide(o, 2 * round + 1, s);
      r := r.(split := tree);
      res := Flush();
      r := r.(end := tree);
    }

    lemma SoundParts(t: Tree)
      requires Sound(t)
      ensures WellFormed(t) && Conclusions(t)
    {
      SoundConcludes(t);
    }
  }

  // ----- the nodes picked for a split ------------------------------------------------------

  /** The nodes with a literal, in order, with their children numbered from `next`. */
  ghost function Picks(all: seq<int>, lits: seq<int>, next: int): seq<Cut>
    requires |all| == |lits|
  {
    if all == [] then []
    else
      var last := |all| - 1;
      var front := Picks(all[..last], lits[..last], next);
      if lits[last] != 0 then front + [Cut(all[last], lits[last], next + |front|)] else front
  }

  ghost predicate PickAt(all: seq<int>, lits: seq<int>, next: int, cuts: seq<Cut>, k: nat)
    requires |all| == |lits| && k < |cuts|
  {
    exists i :: 0 <= i < |all| && lits[i] != 0 && cuts[k] == Cut(all[i], lits[i], next + k)
  }

  lemma NoPicks(t: Tree, all: seq<int>, lits: seq<int>, next: int)
    requires |all| == |lits|
    ensures Picks(all[..0], lits[..0], next) == [] && SplitAll(t, []) == t
  {}

  lemma PickNext(all: seq<int>, lits: seq<int>, next: int, i: nat)
    requires |all| == |lits| && i < |all|
    ensures var front := Picks(all[..i], lits[..i], next);
            Picks(all[..i + 1], lits[..i + 1], next) == if lits[i] != 0 then front + [Cut(all[i], lits[i], next + |front|)] else front
  {
    assert all[..i + 1][..i] == all[..i] && lits[..i + 1][..i] == lits[..i];
  }

  lemma {:induction false} PicksMean(all: seq<int>, lits: seq<int>, next: int)
    requires |all| == |lits| && Distinct(all)
    ensures var cuts := Picks(all, lits, next);
            && (forall k :: 0 <= k < |cuts| ==> PickAt(all, lits, next, cuts, k))
            && (forall i :: 0 <= i < |all| && lits[i] != 0 ==> IsCut(cuts, all[i]))
            && (forall k, m :: 0 <= k < m < |cuts| ==> cuts[k].id != cuts[m].id)
  {
    if all != [] {
      var last := |all| - 1;
      var fa, fl := all[..last], lits[..last];
      PicksMean(fa, fl, next);
      var front, cuts := Picks(fa, fl, next), Picks(all, lits, next);
      forall k | 0 <= k < |cuts| ensures PickAt(all, lits, next, cuts, k) {
        if k < |front| {
          assert PickAt(fa, fl, next, front, k);
          var i :| 0 <= i < |fa| && fl[i] != 0 && front[k] == Cut(fa[i], fl[i], next + k);
          assert all[i] == fa[i] && lits[i] == fl[i];
        }
      }
      forall i | 0 <= i < |all| && lits[i] != 0 ensures IsCut(cuts, all[i]) {
        if i < last {
          assert fl[i] != 0 && IsCut(front, fa[i]);
          var k :| 0 <= k < |front| && front[k].id == fa[i];
          assert cuts[k].id == all[i];
        } else {
          assert cuts[|front|].id == all[i];
        }
      }
      forall k, m | 0 <= k < m < |cuts| ensures cuts[k].id != cuts[m].id {
        assert PickAt(fa, fl, next, front, k);
        if m == |front| {
          var i :| 0 <= i < |fa| && fl[i] != 0 && front[k] == Cut(fa[i], fl[i], next + k);
          assert all[i] == fa[i];
        }
      }
    }
  }
}
