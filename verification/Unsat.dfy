/** The set of falsified clauses, kept on an indexed stack or on the chunked queue. */
module Unsat {
  import opened UnsatQueue

  class Stack {
    const pos: array<int>
    var stack: seq<int>

    ghost predicate Valid()
      reads this, pos
    {
      && (forall k :: 0 <= k < |stack| ==> 0 <= stack[k] < pos.Length && pos[stack[k]] == k)
      && (forall c :: 0 <= c < pos.Length ==> -1 <= pos[c] < |stack| && (pos[c] >= 0 ==> stack[pos[c]] == c))
    }

    constructor (nclauses: nat)
      ensures Valid() && stack == [] && fresh(pos) && pos.Length == nclauses
    {
      pos := new int[nclauses](_ => -1);
      stack := [];
    }

    method Enqueue(cidx: int)
      requires Valid() && 0 <= cidx < pos.Length && cidx !in stack
      modifies this, pos
      ensures Valid() && stack == old(stack) + [cidx]
    {
      pos[cidx] := |stack|;
      stack := stack + [cidx];
    }

    /** The last clause takes the place of the removed one. */
    method Dequeue(cidx: int)
      requires Valid() && 0 <= cidx < pos.Length && cidx in stack
      modifies this, pos
      ensures Valid() && |stack| == |old(stack)| - 1 && old(pos[cidx]) < |old(stack)|
      ensures forall k :: 0 <= k < |stack| ==>
                stack[k] == if k == old(pos[cidx]) then old(stack)[|stack|] else old(stack)[k]
    {
      var cpos := pos[cidx];
      var didx := stack[|stack| - 1];
      stack := stack[..|stack| - 1];
      if didx != cidx {
        stack := stack[cpos := didx];
        pos[didx] := cpos;
      }
      pos[cidx] := -1;
    }

    method Reset()
      requires Valid()
      modifies this, pos
      ensures Valid() && stack == []
    {
      while stack != []
        invariant Valid()
        decreases |stack|
      {
        var cidx := stack[|stack| - 1];
        stack := stack[..|stack| - 1];
        pos[cidx] := -1;
      }
    }
  }

  /** The picking strategies: breadth or depth first, relaxed and unfair
      breadth first on the queue, pseudo breadth first and random on the stack. */
  datatype Picking = Pseudo | Random | Bfs | Dfs | Relaxed | Unfair

  /** The first of several has become the last. */
  ghost predicate FirstLast(before: seq<int>, after: seq<int>) {
    |before| > 1 && after == before[1..] + [before[0]]
  }

  /** Which of the falsified clauses each strategy takes. */
  ghost predicate PickRight(pick: Picking, s: seq<int>, flips: nat, cidx: int) {
    && cidx in s
    && match pick
       case Pseudo => cidx == s[flips % |s|]
       case Bfs => cidx == s[0]
       case Dfs => cidx == s[|s| - 1]
       case Unfair => cidx == s[0] || (|s| > 1 && cidx == s[1])
       case _ => true
  }

  ghost predicate NoRepeats(s: seq<int>) {
    forall i, j :: 0 <= i < j < |s| ==> s[i] != s[j]
  }

  /** A duplicate-free sequence has as many entries as members. */
  lemma {:induction false} Cardinality(s: seq<int>)
    requires NoRepeats(s)
    ensures |s| == |set x | x in s|
  {
    if s != [] {
      var k := |s| - 1;
      Cardinality(s[..k]);
      assert (set x | x in s) == (set x | x in s[..k]) + {s[k]};
    }
  }

  class UnsatSet {
    const usequeue: bool
    const queue: Queue
    const stack: Stack
    const size: int

    ghost function Footprint(): set<object>
      reads this, queue
    {
      {this, queue, queue.lnk, stack, stack.pos} + queue.links
    }

    ghost predicate Valid()
      reads this, Footprint()
    {
      && queue.lnk.Length == size == stack.pos.Length
      && queue.Owned() && queue.Valid() && stack.Valid()
    }

    ghost function Contents(): seq<int>
      reads this, queue, stack
    {
      if usequeue then queue.contents else stack.stack
    }

    lemma ContentsDistinct()
      requires Valid()
      ensures NoRepeats(Contents())
      ensures forall c :: c in Contents() ==> 0 <= c < size
    {
      queue.Exact();
      if !usequeue {
        forall i, j | 0 <= i < j < |stack.stack| ensures stack.stack[i] != stack.stack[j] {
          assert stack.pos[stack.stack[i]] == i && stack.pos[stack.stack[j]] == j;
        }
      }
    }

    constructor (nclauses: nat, usequeue: bool, minchunksize: int, defrag: bool)
      requires minchunksize >= 2
      ensures Valid() && Contents() == [] && fresh(Footprint()) && size == nclauses
      ensures this.usequeue == usequeue
    {
      this.usequeue, size := usequeue, nclauses;
      queue := new Queue(nclauses, minchunksize, defrag);
      stack := new Stack(nclauses);
    }

    function Count(): (n: int)
      requires Valid()
      reads this, Footprint()
      ensures n == |Contents()|
    {
      if usequeue then queue.count else |stack.stack|
    }

    method Enqueue(cidx: int)
      requires Valid() && 0 <= cidx < size && cidx !in Contents()
      modifies Footprint()
      ensures Valid() && fresh(Footprint() - old(Footprint()))
      ensures Contents() == old(Contents()) + [cidx]
    {
      queue.Exact();
      if usequeue { queue.Enqueue(cidx); } else { stack.Enqueue(cidx); }
    }

    method Dequeue(cidx: int)
      requires Valid() && 0 <= cidx < size && cidx in Contents()
      modifies Footprint()
      ensures Valid() && fresh(Footprint() - old(Footprint()))
      ensures forall c :: c in Contents() <==> c in old(Contents()) && c != cidx
    {
      queue.Exact();
      ContentsDistinct();
      ghost var was := Contents();
      if usequeue {
        queue.Dequeue(cidx);
        ghost var k :| Removed(k, cidx, was, queue.contents);
        RemovedMembers(k, cidx, was, queue.contents);
      } else {
        ghost var k := stack.pos[cidx];
        stack.Dequeue(cidx);
        SwappedMembers(k, cidx, was, stack.stack);
      }
    }

    method Reset()
      requires Valid()
      modifies Footprint()
      ensures Valid() && Contents() == [] && fresh(Footprint() - old(Footprint()))
    {
      if usequeue { queue.Reset(); } else { stack.Reset(); }
    }

    /** Some falsified clause, chosen by the strategy; random choices are open. */
    method Pick(pick: Picking, flips: nat) returns (cidx: int)
      requires Valid() && Contents() != []
      requires usequeue <==> !pick.Pseudo? && !pick.Random?
      modifies Footprint()
      ensures Valid() && Footprint() == old(Footprint())
      ensures cidx in Contents() && (forall c :: c in Contents() <==> c in old(Contents()))
      ensures PickRight(pick, old(Contents()), flips, cidx)
      ensures !pick.Unfair? ==> Contents() == old(Contents())
      ensures pick.Unfair? ==> cidx == Contents()[0] && (Contents() == old(Contents()) || FirstLast(old(Contents()), Contents()))
    {
      if usequeue { cidx := PickFromQueue(pick, flips); } else { cidx := PickFromStack(pick, flips); }
    }

    /** The stack is read at the position of the flip count, or anywhere. */
    method PickFromStack(pick: Picking, flips: nat) returns (cidx: int)
      requires stack.stack != [] && (pick.Pseudo? || pick.Random?)
      ensures PickRight(pick, stack.stack, flips, cidx)
    {
      var cpos: int;
      if pick.Pseudo? { cpos := flips % |stack.stack|; } else { cpos :| 0 <= cpos < |stack.stack|; }
      cidx := stack.stack[cpos];
    }

    method PickFromQueue(pick: Picking, ghost flips: nat) returns (cidx: int)
      requires Valid() && usequeue && queue.contents != [] && !pick.Pseudo?
      modifies Footprint()
      ensures Valid() && Footprint() == old(Footprint())
      ensures cidx in queue.contents && (forall c :: c in queue.contents <==> c in old(queue.contents))
      ensures PickRight(pick, old(queue.contents), flips, cidx)
      ensures !pick.Unfair? ==> queue.contents == old(queue.contents)
      ensures pick.Unfair? ==> cidx == queue.contents[0]
      ensures pick.Unfair? ==> queue.contents == old(queue.contents) || FirstLast(old(queue.contents), queue.contents)
    {
      hide Queue.Linked, Queue.Distinct, Queue.Chained, Queue.Indexed, Queue.Owned, Stack.Valid;
      queue.Ends();
      var l := queue.first;
      ghost var k := 0;
      if pick.Relaxed? {
        l, k := RelaxedWalk();
      } else if pick.Unfair? {
        var again: bool := *;
        if queue.count > 1 && again { queue.Rotate(); }
        queue.Ends();
        l := queue.first;
      } else if pick.Dfs? {
        l, k := queue.last, |queue.order| - 1;
      }
      queue.ReadLink(k);
      cidx := l.cidx;
    }

    /** Walks from the first link as long as chance says so. */
    method RelaxedWalk() returns (l: Lnk, ghost k: nat)
      requires Valid() && usequeue && Contents() != []
      ensures k < |queue.order| && l == queue.order[k]
    {
      l := queue.first;
      k := 0;
      while l.next != null
        invariant 0 <= k < |queue.order| && l == queue.order[k]
        decreases |queue.order| - k
      {
        var more: bool := *;
        if !more { break; }
        l := l.next;
        k := k + 1;
      }
    }
  }

  lemma RemovedMembers(k: int, x: int, before: seq<int>, after: seq<int>)
    requires Removed(k, x, before, after) && NoRepeats(before)
    ensures forall c :: c in after <==> c in before && c != x
  {
    forall c | c in before && c != x ensures c in after {
      var i :| 0 <= i < |before| && before[i] == c;
      assert after[if i < k then i else i - 1] == c;
    }
  }

  lemma SwappedMembers(k: int, x: int, before: seq<int>, after: seq<int>)
    requires 0 <= k < |before| && before[k] == x && NoRepeats(before) && |after| == |before| - 1
    requires forall i :: 0 <= i < |after| ==> after[i] == if i == k then before[|after|] else before[i]
    ensures forall c :: c in after <==> c in before && c != x
  {
    forall c | c in before && c != x ensures c in after {
      var i :| 0 <= i < |before| && before[i] == c;
      assert after[if i == |after| then k else i] == c;
    }
  }
}
