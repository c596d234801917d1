/** The queue of falsified clauses: doubly linked links drawn from chunks, a
    singly linked list of free links, and one back pointer per clause. */
module UnsatQueue {
  import opened Finite

  class Lnk {
    var cidx: int
    var prev: Lnk?
    var next: Lnk?

    constructor ()
      ensures next == null
    {
      cidx, prev, next := 0, null, null;
    }
  }

  /** A chunk of `size` cells holds size - 1 links, its first cell being the header. */
  datatype Chunk = Chunk(size: int, lnks: seq<Lnk>)

  ghost function Capacity(chunks: seq<Chunk>): int {
    if chunks == [] then 0 else chunks[0].size - 1 + Capacity(chunks[1..])
  }

  /** Every clause on the queue points to its link, all others to none. */
  ghost predicate BackPointers(order: seq<Lnk>, cs: seq<int>, back: seq<Lnk?>) {
    && |order| == |cs|
    && (forall i :: 0 <= i < |cs| ==> 0 <= cs[i] < |back| && back[cs[i]] == order[i])
    && (forall c :: 0 <= c < |back| && back[c] != null ==> c in cs)
  }

  /** Hence no clause is queued twice, and the back pointers tell which are queued. */
  lemma BackPointersExact(order: seq<Lnk>, cs: seq<int>, back: seq<Lnk?>)
    requires BackPointers(order, cs, back) && forall i, j :: 0 <= i < j < |order| ==> order[i] != order[j]
    ensures forall i, j :: 0 <= i < j < |cs| ==> cs[i] != cs[j]
    ensures forall c :: 0 <= c < |back| ==> (back[c] != null <==> c in cs)
    ensures forall c :: c in cs ==> 0 <= c < |back|
  {
  }

  lemma BackPointersAppend(order: seq<Lnk>, cs: seq<int>, back: seq<Lnk?>, l: Lnk, c: int)
    requires BackPointers(order, cs, back) && 0 <= c < |back| && back[c] == null
    ensures BackPointers(order + [l], cs + [c], back[c := l])
  {
    assert (cs + [c])[|cs|] == c;
    assert forall x :: x in cs ==> x in cs + [c];
  }

  lemma BackPointersRemove(order: seq<Lnk>, cs: seq<int>, back: seq<Lnk?>, k: nat)
    requires BackPointers(order, cs, back) && forall i, j :: 0 <= i < j < |order| ==> order[i] != order[j]
    requires k < |cs|
    ensures 0 <= cs[k] < |back|
    ensures BackPointers(order[..k] + order[k + 1..], cs[..k] + cs[k + 1..], back[cs[k] := null])
  {
    var cs' := cs[..k] + cs[k + 1..];
    BackPointersExact(order, cs, back);
    forall c | c in cs && c != cs[k] ensures c in cs' {
      var i :| 0 <= i < |cs| && cs[i] == c;
      assert cs'[if i < k then i else i - 1] == c;
    }
  }

  class Queue {
    const minchunksize: int
    const defrag: bool
    const lnk: array<Lnk?>
    var count: int
    var chunksize: int
    var nlnks: int
    var nfree: int
    var first: Lnk?
    var last: Lnk?
    var free: Lnk?
    var chunks: seq<Chunk>
    /** The falsified clauses in queue order. */
    ghost var contents: seq<int>
    ghost var order: seq<Lnk>
    ghost var spare: seq<Lnk>
    /** All links of the queue, used or free. */
    ghost var links: set<Lnk>

    ghost predicate Distinct()
      reads `order, `spare
    {
      && (forall i, j :: 0 <= i < j < |order| ==> order[i] != order[j])
      && (forall i, j :: 0 <= i < j < |spare| ==> spare[i] != spare[j])
      && (forall i, j :: 0 <= i < |order| && 0 <= j < |spare| ==> order[i] != spare[j])
    }

    ghost predicate Owned()
      reads `order, `spare, `links
    {
      (forall i :: 0 <= i < |order| ==> order[i] in links) && (forall i :: 0 <= i < |spare| ==> spare[i] in links)
    }

    /** The used links form the doubly linked list from `first` to `last`. */
    ghost predicate Linked()
      reads `first, `last, `order, order`prev, order`next
    {
      && first == (if order == [] then null else order[0])
      && last == (if order == [] then null else order[|order| - 1])
      && (forall i {:trigger order[i].prev} :: 0 <= i < |order| ==> order[i].prev == if i == 0 then null else order[i - 1])
      && (forall i {:trigger order[i].next} :: 0 <= i < |order| ==> order[i].next == if i == |order| - 1 then null else order[i + 1])
    }

    /** The free links form the singly linked list from `free`. */
    ghost predicate Chained()
      reads `free, `spare, spare`next
    {
      && free == (if spare == [] then null else spare[0])
      && (forall i {:trigger spare[i].next} :: 0 <= i < |spare| ==> spare[i].next == if i == |spare| - 1 then null else spare[i + 1])
    }

    ghost predicate Indexed()
      reads `order, `contents, lnk, order`cidx
    {
      && |contents| == |order| && BackPointers(order, contents, lnk[..])
      && (forall i {:trigger order[i].cidx} :: 0 <= i < |order| ==> order[i].cidx == contents[i])
    }

    ghost predicate Accounted()
      reads this
    {
      && minchunksize >= 2 && (chunksize == 0 || chunksize >= minchunksize)
      && count == |order| && nfree == |spare| && nlnks == nfree + count == Capacity(chunks)
    }

    ghost predicate Valid()
      reads this, lnk, order, spare
    {
      Distinct() && Owned() && Linked() && Chained() && Indexed() && Accounted()
    }

    constructor (nclauses: nat, minchunksize: int, defrag: bool)
      requires minchunksize >= 2
      ensures Valid() && contents == [] && links == {} && fresh(lnk) && lnk.Length == nclauses
    {
      this.minchunksize, this.defrag := minchunksize, defrag;
      lnk := new Lnk?[nclauses](_ => null);
      count, chunksize, nlnks, nfree := 0, 0, 0, 0;
      first, last, free, chunks, order, spare, contents, links := null, null, null, [], [], [], [], {};
    }

    /** Appends a link to the list. */
    method EnqueueLnk(l: Lnk)
      requires Distinct() && Linked() && Chained() && l !in order && l !in spare
      modifies this`first, this`last, this`order, l`prev, l`next, order`next
      ensures Distinct() && Linked() && Chained() && order == old(order) + [l]
    {
      ghost var was := order;
      if last != null { last.next := l; } else { first := l; }
      var prev := last;
      last := l;
      l.prev := prev;
      l.next := null;
      order := order + [l];
    }

    /** Unlinks the k-th link of the list. */
    method DequeueLnk(l: Lnk, ghost k: nat)
      requires Distinct() && Linked() && Chained() && k < |order| && order[k] == l
      modifies this`first, this`last, this`order, order`next, order`prev
      ensures Distinct() && Linked() && Chained() && order == old(order)[..k] + old(order)[k + 1..]
      ensures l !in order
    {
      var prev, next := l.prev, l.next;
      if prev != null { prev.next := next; } else { first := next; }
      if next != null { next.prev := prev; } else { last := prev; }
      order := order[..k] + order[k + 1..];
    }
  
    /** A larger chunk: all its links become free. Called when no link is free. */
    method LargerNewChunk()
      requires Valid() && spare == []
      modifies `chunksize, `nlnks, `nfree, `free, `chunks, `spare, `links
      ensures Valid() && spare != [] && fresh(links - old(links)) && old(links) <= links
      ensures chunksize == (if old(chunksize) == 0 then minchunksize else 2 * old(chunksize))
    {
      hide BackPointers, Indexed, Linked, Distinct, Owned, Chained, Capacity;
      chunksize := if chunksize == 0 then minchunksize else 2 * chunksize;
      var cells := FreshLinks(chunksize - 1);
      AddChunk(cells);
    }

    /** The cells of a new chunk become free. */
    method AddChunk(cells: seq<Lnk>)
      requires Distinct() && Owned() && Linked() && Indexed() && spare == [] && cells != [] && chunksize == |cells| + 1
      requires minchunksize >= 2 && chunksize >= minchunksize
      requires count == |order| && nfree == 0 && nlnks == nfree + count == Capacity(chunks)
      requires forall i, j :: 0 <= i < j < |cells| ==> cells[i] != cells[j]
      requires forall l :: l in cells ==> l !in links
      requires forall i {:trigger cells[i].next} :: 0 <= i < |cells| ==> cells[i].next == if i == |cells| - 1 then null else cells[i + 1]
      modifies `nlnks, `nfree, `free, `chunks, `spare, `links
      ensures Valid() && spare == cells && links == old(links) + set l <- cells
    {
      hide BackPointers, Indexed, Linked, Distinct, Owned, Chained, Capacity;
      OrderOwned();
      ChunkAdded(Chunk(chunksize, cells), chunks);
      free := cells[0];
      nfree := nfree + chunksize - 1;
      nlnks := nlnks + chunksize - 1;
      chunks := [Chunk(chunksize, cells)] + chunks;
      spare := cells;
      ghost var was := links;
      links := links + set l <- cells;
      ChunkOwned(cells, was);
    }

    static lemma ChunkAdded(c: Chunk, chunks: seq<Chunk>)
      ensures Capacity([c] + chunks) == c.size - 1 + Capacity(chunks)
    {
      assert ([c] + chunks)[1..] == chunks;
    }

    lemma ChunkOwned(cells: seq<Lnk>, before: set<Lnk>)
      requires spare == cells != [] && free == cells[0] && links == before + set l <- cells
      requires forall i, j :: 0 <= i < j < |order| ==> order[i] != order[j]
      requires forall i, j :: 0 <= i < j < |cells| ==> cells[i] != cells[j]
      requires forall i :: 0 <= i < |order| ==> order[i] in before
      requires forall l :: l in cells ==> l !in before
      requires forall i {:trigger cells[i].next} :: 0 <= i < |cells| ==> cells[i].next == if i == |cells| - 1 then null else cells[i + 1]
      ensures Distinct() && Owned() && Chained()
    {
      forall i, j | 0 <= i < |order| && 0 <= j < |cells| ensures order[i] != cells[j] { assert cells[j] in cells; }
    }

    lemma OrderOwned()
      requires Distinct() && Owned()
      ensures forall i, j :: 0 <= i < j < |order| ==> order[i] != order[j]
      ensures forall i :: 0 <= i < |order| ==> order[i] in links
    {}

    /** The links of a new chunk, chained in the order of their addresses. */
    static method FreshLinks(n: nat) returns (links: seq<Lnk>)
      ensures |links| == n && forall l :: l in links ==> fresh(l)
      ensures forall i, j :: 0 <= i < j < n ==> links[i] != links[j]
      ensures forall i {:trigger links[i].next} :: 0 <= i < n ==> links[i].next == if i == n - 1 then null else links[i + 1]
    {
      links := [];
      var prev: Lnk? := null;
      for k := 0 to n
        invariant |links| == k && forall l :: l in links ==> fresh(l)
        invariant prev == if k == 0 then null else links[0]
        invariant forall i, j :: 0 <= i < j < k ==> links[i] != links[j]
        invariant forall i {:trigger links[i].next} :: 0 <= i < k ==> links[i].next == if i == k - 1 then null else links[i + 1]
      {
        var p := new Lnk();
        p.next := prev;
        prev := p;
        links := [p] + links;
      }
    }

    /** Takes a link off the free list, making a new chunk when there is none. */
    method NewLnk() returns (res: Lnk)
      requires Valid()
      modifies `chunksize, `nlnks, `nfree, `free, `chunks, `spare, `links
      ensures Distinct() && Owned() && Linked() && Chained() && Indexed()
      ensures minchunksize >= 2 && (chunksize == 0 || chunksize >= minchunksize)
      ensures count == |order| && nfree == |spare| && nlnks == nfree + count + 1 == Capacity(chunks)
      ensures res !in order && res !in spare && res in links
      ensures fresh(links - old(links)) && old(links) <= links
    {
      hide BackPointers, Capacity;
      if free == null { LargerNewChunk(); }
      res := free;
      assert res == spare[0];
      free := res.next;
      nfree := nfree - 1;
      spare := spare[1..];
    }

    method Enqueue(cidx: int)
      requires Valid() && 0 <= cidx < lnk.Length && lnk[cidx] == null
      modifies this, lnk, links
      ensures Valid() && contents == old(contents) + [cidx]
      ensures fresh(links - old(links)) && old(links) <= links
    {
      hide BackPointers, Capacity;
      var res := NewLnk();
      Attach(res, cidx);
      count := count + 1;
    }

    /** The clause gets the link, which goes to the end of the list. */
    method Attach(res: Lnk, cidx: int)
      requires Distinct() && Owned() && Linked() && Chained() && Indexed()
      requires res !in order && res !in spare && res in links
      requires 0 <= cidx < lnk.Length && lnk[cidx] == null
      modifies lnk, `first, `last, `order, `contents, res, order`next
      ensures Distinct() && Owned() && Linked() && Chained() && Indexed()
      ensures contents == old(contents) + [cidx] && |order| == old(|order|) + 1
    {
      hide BackPointers;
      BackPointersAppend(order, contents, lnk[..], res, cidx);
      ghost var back, before := lnk[..], order;
      assert forall i :: 0 <= i < |before| ==> before[i] != res && before[i].cidx == contents[i];
      lnk[cidx] := res;
      res.cidx := cidx;
      EnqueueLnk(res);
      contents := contents + [cidx];
      assert lnk[..] == back[cidx := res];
      assert Indexed();
    }

    /** No clause is queued twice, and the back pointers tell which are queued. */
    lemma Exact()
      requires Valid()
      ensures |contents| == |order| && forall i, j :: 0 <= i < j < |contents| ==> contents[i] != contents[j]
      ensures forall c :: 0 <= c < lnk.Length ==> (lnk[c] != null <==> c in contents)
      ensures forall c :: c in contents ==> 0 <= c < lnk.Length
    {
      BackPointersExact(order, contents, lnk[..]);
    }

    lemma Ends()
      requires Valid() && contents != []
      ensures |contents| == |order| && first == order[0] && last == order[|order| - 1]
    {
    }

    lemma ReadLink(k: nat)
      requires Valid() && k < |contents|
      ensures |contents| == |order| && order[k].cidx == contents[k]
    {
    }

    method Dequeue(cidx: int)
      requires Valid() && 0 <= cidx < lnk.Length && lnk[cidx] != null
      modifies this, lnk, links
      ensures Valid()
      ensures exists k :: Removed(k, cidx, old(contents), contents)
      ensures fresh(links - old(links)) && !NeedToDefrag()
    {
      hide BackPointers, Capacity, Distinct, Linked, Chained, Indexed;
      Exact();
      ghost var k :| 0 <= k < |contents| && contents[k] == cidx;
      count := count - 1;
      var l := Detach(cidx, k);
      FreeLnk(l);
      assert Removed(k, cidx, old(contents), contents);
      if NeedToDefrag() { Defrag(); }
    }

    method FreeLnk(l: Lnk)
      requires Distinct() && Owned() && Linked() && Chained() && Indexed()
      requires l !in order && l !in spare && l in links
      modifies `free, `nfree, `spare, l`next
      ensures Distinct() && Owned() && Linked() && Chained() && Indexed()
      ensures nfree == old(nfree) + 1 && |spare| == old(|spare|) + 1
    {
      hide Indexed;
      l.next := free;
      free := l;
      nfree := nfree + 1;
      spare := [l] + spare;
    }

    /** The first clause of the queue goes to its end. */
    method Rotate()
      requires Valid() && count > 0
      modifies `first, `last, `order, `contents, links
      ensures Valid() && contents == old(contents)[1..] + [old(contents)[0]]
    {
      hide Capacity, Chained, BackPointers;
      BackPointersRotate(order, contents, lnk[..]);
      ghost var before := order;
      var l := first;
      assert l == order[0];
      MoveToEnd(l);
      contents := contents[1..] + [contents[0]];
      assert forall i :: 0 <= i < |order| ==> order[i] == before[if i == |order| - 1 then 0 else i + 1];
      assert Owned() by { assert forall i :: 0 <= i < |before| ==> before[i] in links; }
    }

    method MoveToEnd(l: Lnk)
      requires Distinct() && Linked() && Chained() && order != [] && order[0] == l
      modifies `first, `last, `order, order`next, order`prev
      ensures Distinct() && Linked() && Chained() && order == old(order)[1..] + [l]
    {
      DequeueLnk(l, 0);
      EnqueueLnk(l);
    }

    /** Clears every back pointer. */
    method FlushBackPointers()
      requires Valid()
      modifies lnk
      ensures forall c :: 0 <= c < lnk.Length ==> lnk[c] == null
    {
      hide Capacity, Chained, Owned, Distinct;
      var p := first;
      ghost var j := 0;
      while p != null
        invariant 0 <= j <= |order| && p == if j == |order| then null else order[j]
        invariant forall c :: 0 <= c < lnk.Length && lnk[c] != null ==> c in contents[j..]
        decreases |order| - j
      {
        BackPointersAt(order, contents, old(lnk[..]), j);
        assert p.cidx == contents[j];
        assert contents[j..] == [contents[j]] + contents[j + 1..];
        lnk[p.cidx] := null;
        p := p.next;
        j := j + 1;
      }
    }

    /** Empties the queue and gives all chunks back. */
    method Reset()
      requires Valid()
      modifies this, lnk
      ensures Valid() && contents == [] && links == {} && chunks == [] && chunksize == 0
      ensures forall c :: 0 <= c < lnk.Length ==> lnk[c] == null
    {
      hide BackPointers, Linked, Distinct, Owned, Chained, Indexed, Accounted;
      assert minchunksize >= 2 by { Minimum(); }
      FlushBackPointers();
      count, first, last := 0, null, null;
      chunks, free, nfree, chunksize, nlnks := [], null, 0, 0, 0;
      order, spare, contents, links := [], [], [], {};
      Vacant();
    }

    lemma Minimum()
      requires Valid()
      ensures minchunksize >= 2
    {}

    lemma Vacant()
      requires order == [] && spare == [] && contents == [] && first == null && last == null && free == null
      requires minchunksize >= 2 && chunksize == count == nfree == nlnks == 0 && chunks == []
      requires forall c :: 0 <= c < lnk.Length ==> lnk[c] == null
      ensures Valid()
    {
      BackPointersNone(lnk[..]);
    }

    /** Moves the whole queue into one new chunk, keeping its order. */
    method Defrag()
      requires Valid() && count > 0 && nlnks > minchunksize && count <= nfree / 4
      modifies this, lnk
      ensures Valid() && contents == old(contents) && fresh(links)
      ensures nlnks <= old(nlnks) && |chunks| == 1 && !NeedToDefrag()
    {
      hide BackPointers, Linked, Distinct, Owned, Chained, Indexed, Capacity;
      var n := count;
      var size := Max(2 * (n + 1), minchunksize);
      ghost var cs := contents;
      Exact();
      assert forall i :: 0 <= i < n ==> contents[i] in contents;
      var cells := CopyLinks(size - 1);
      Reset();
      contents := cs;
      Adopt(cells, n, size);
    }

    /** Makes the new chunk the whole queue. */
    method Adopt(cells: seq<Lnk>, n: int, size: int)
      requires 0 < n == |contents| < |cells| == size - 1 && minchunksize >= 2 && chunksize == 0
      requires forall i, j :: 0 <= i < j < |cells| ==> cells[i] != cells[j]
      requires Copied(cells, contents)
      requires forall i {:trigger cells[i].next} :: n <= i < |cells| ==> cells[i].next == if i == |cells| - 1 then null else cells[i + 1]
      requires forall c :: 0 <= c < lnk.Length ==> lnk[c] == null
      requires forall i, j :: 0 <= i < j < n ==> contents[i] != contents[j]
      requires forall i :: 0 <= i < n ==> 0 <= contents[i] < lnk.Length
      modifies `first, `last, `count, `free, `nfree, `chunks, `nlnks, `order, `spare, `links, lnk
      ensures Valid() && contents == old(contents) && nlnks == size - 1 && |chunks| == 1 && count == n && nfree == size - 1 - n
      ensures links == set l <- cells
    {
      hide BackPointers, Capacity, Distinct, Linked, Chained, Owned, Indexed;
      CopiedSize(cells, contents);
      hide Copied;
      AdoptLists(cells, n);
      count := n;
      RestoreBackPointers(cells, n);
      nfree := size - 1 - n;
      chunks := [Chunk(size, cells)];
      nlnks := size - 1;
      OneChunk(chunks);
      AdoptedIndex(cells);
    }

    lemma AdoptedIndex(cells: seq<Lnk>)
      requires Copied(cells, contents) && order == cells[..|contents|] && BackPointers(order, contents, lnk[..])
      ensures Indexed()
    {
      hide BackPointers;
      assert forall i {:trigger order[i].cidx} :: 0 <= i < |order| ==> order[i] == cells[i] && cells[i].cidx == contents[i];
    }

    /** The first n cells become the queue, the others the free list. */
    method AdoptLists(cells: seq<Lnk>, n: int)
      requires 0 < n == |contents| < |cells| && Copied(cells, contents)
      requires forall i, j :: 0 <= i < j < |cells| ==> cells[i] != cells[j]
      requires forall i {:trigger cells[i].next} :: n <= i < |cells| ==> cells[i].next == if i == |cells| - 1 then null else cells[i + 1]
      modifies `first, `last, `free, `order, `spare, `links
      ensures Distinct() && Owned() && Linked() && Chained()
      ensures order == cells[..n] && spare == cells[n..] && links == set l <- cells
    {
      hide Distinct, Owned, Linked, Chained, Copied;
      order, spare := cells[..n], cells[n..];
      links := set l <- cells;
      first, last, free := cells[0], cells[n - 1], cells[n];
      AdoptedOwned(cells, n);
      AdoptedLinked(cells, n);
      AdoptedChained(cells, n);
    }

    lemma AdoptedOwned(cells: seq<Lnk>, n: int)
      requires 0 < n < |cells| && order == cells[..n] && spare == cells[n..] && links == set l <- cells
      requires forall i, j :: 0 <= i < j < |cells| ==> cells[i] != cells[j]
      ensures Distinct() && Owned()
    {
      assert forall i :: 0 <= i < |cells| ==> cells[i] in cells;
    }

    lemma AdoptedLinked(cells: seq<Lnk>, n: int)
      requires 0 < n == |contents| < |cells| && Copied(cells, contents)
      requires order == cells[..n] && first == cells[0] && last == cells[n - 1]
      ensures Linked()
    {}

    lemma AdoptedChained(cells: seq<Lnk>, n: int)
      requires 0 < n < |cells| && spare == cells[n..] && free == cells[n]
      requires forall i {:trigger cells[i].next} :: n <= i < |cells| ==> cells[i].next == if i == |cells| - 1 then null else cells[i + 1]
      ensures Chained()
    {
      assert forall i :: 0 <= i < |spare| ==> spare[i] == cells[n + i];
    }

    static lemma CopiedSize(cells: seq<Lnk>, cs: seq<int>)
      requires Copied(cells, cs)
      ensures |cs| <= |cells|
    {}

    static lemma OneChunk(chunks: seq<Chunk>)
      requires |chunks| == 1
      ensures Capacity(chunks) == chunks[0].size - 1
    {
      assert Capacity(chunks[1..]) == 0;
    }

    /** The cells repeat the clauses as a doubly linked list. */
    static ghost predicate Copied(cells: seq<Lnk>, cs: seq<int>)
      reads cells
    {
      && |cs| <= |cells|
      && (forall i {:trigger cells[i].cidx} :: 0 <= i < |cs| ==> cells[i].cidx == cs[i])
      && (forall i {:trigger cells[i].prev} :: 0 <= i < |cs| ==> cells[i].prev == if i == 0 then null else cells[i - 1])
      && (forall i {:trigger cells[i].next} :: 0 <= i < |cs| ==> cells[i].next == if i == |cs| - 1 then null else cells[i + 1])
    }

    /** A fresh block of n cells whose first ones repeat the queue, the others
        chained as free links. */
    method CopyLinks(n: int) returns (cells: seq<Lnk>)
      requires Valid() && 0 < count < n
      ensures |cells| == n && forall l :: l in cells ==> fresh(l)
      ensures forall i, j :: 0 <= i < j < n ==> cells[i] != cells[j]
      ensures count == |contents| && Copied(cells, contents)
      ensures forall i {:trigger cells[i].next} :: count <= i < n ==> cells[i].next == if i == n - 1 then null else cells[i + 1]
    {
      hide Capacity, Chained, Owned, BackPointers, Distinct, Linked, Indexed, CopiedTo;
      Readable();
      Ends();
      cells := FreshLinks(n);
      assert forall i :: 0 <= i < n ==> cells[i] in cells;
      var q, k := first, 0;
      CopiedNone(cells, contents, n);
      while q != null
        invariant 0 <= k <= count == |order| == |contents| && q == if k == count then null else order[k]
        invariant CopiedTo(cells, contents, k, n)
        invariant forall i {:trigger order[i].cidx} :: 0 <= i < |order| ==> order[i].cidx == contents[i]
        invariant forall i {:trigger order[i].next} :: 0 <= i < |order| ==> order[i].next == if i == |order| - 1 then null else order[i + 1]
        decreases count - k
      {
        CopyLink(cells, contents, q.cidx, k, n);
        q := q.next;
        k := k + 1;
      }
      EndCopy(cells, contents, k, n);
    }

    lemma Readable()
      requires Valid()
      ensures |order| == |contents| == count
      ensures forall i {:trigger order[i].cidx} :: 0 <= i < |order| ==> order[i].cidx == contents[i]
      ensures forall i {:trigger order[i].next} :: 0 <= i < |order| ==> order[i].next == if i == |order| - 1 then null else order[i + 1]
    {}

    static lemma CopiedNone(cells: seq<Lnk>, cs: seq<int>, n: int)
      requires |cs| <= n == |cells|
      requires forall i {:trigger cells[i].next} :: 0 <= i < n ==> cells[i].next == if i == n - 1 then null else cells[i + 1]
      ensures CopiedTo(cells, cs, 0, n)
    {}

    /** The first k cells repeat clauses, and all are chained. */
    static ghost predicate CopiedTo(cells: seq<Lnk>, cs: seq<int>, k: int, n: int)
      requires 0 <= k <= |cs| <= n == |cells|
      reads cells
    {
      && (forall i {:trigger cells[i].cidx} :: 0 <= i < k ==> cells[i].cidx == cs[i])
      && (forall i {:trigger cells[i].prev} :: 0 <= i < k ==> cells[i].prev == if i == 0 then null else cells[i - 1])
      && (forall i {:trigger cells[i].next} :: 0 <= i < n ==> cells[i].next == if i == n - 1 then null else cells[i + 1])
    }

    /** One more cell takes over a clause. */
    static method CopyLink(cells: seq<Lnk>, ghost cs: seq<int>, cidx: int, k: int, n: int)
      requires 0 <= k < |cs| <= n == |cells| && cidx == cs[k] && forall i, j :: 0 <= i < j < n ==> cells[i] != cells[j]
      requires CopiedTo(cells, cs, k, n)
      modifies cells
      ensures CopiedTo(cells, cs, k + 1, n)
    {
      var p := cells[k];
      p.cidx := cidx;
      p.prev := if k == 0 then null else cells[k - 1];
      if k > 0 { cells[k - 1].next := p; }
    }

    /** The last copied cell ends the list; the cells after it stay chained. */
    static method EndCopy(cells: seq<Lnk>, ghost cs: seq<int>, k: int, n: int)
      requires 0 < k == |cs| < n == |cells| && forall i, j :: 0 <= i < j < n ==> cells[i] != cells[j]
      requires CopiedTo(cells, cs, k, n)
      modifies cells
      ensures Copied(cells, cs)
      ensures forall i {:trigger cells[i].next} :: k <= i < n ==> cells[i].next == if i == n - 1 then null else cells[i + 1]
    {
      cells[k - 1].next := null;
    }

    /** Points every queued clause to its cell. */
    method RestoreBackPointers(cells: seq<Lnk>, n: int)
      requires 0 < n <= |cells| && |contents| == n && (forall c :: 0 <= c < lnk.Length ==> lnk[c] == null)
      requires forall i, j :: 0 <= i < j < n ==> contents[i] != contents[j]
      requires forall i :: 0 <= i < n ==> 0 <= contents[i] < lnk.Length
      requires Copied(cells, contents)
      modifies lnk
      ensures BackPointers(cells[..n], contents, lnk[..])
    {
      for k := 0 to n
        invariant forall i :: 0 <= i < k ==> lnk[contents[i]] == cells[i]
        invariant forall c :: 0 <= c < lnk.Length && lnk[c] != null ==> c in contents[..k]
      {
        assert cells[k].cidx == contents[k];
        assert contents[..k + 1] == contents[..k] + [contents[k]];
        lnk[cells[k].cidx] := cells[k];
      }
      assert contents[..n] == contents;
    }

    /** The clause loses its link, which leaves the list. */
    method Detach(cidx: int, ghost k: nat) returns (l: Lnk)
      requires Distinct() && Owned() && Linked() && Chained() && Indexed()
      requires k < |contents| && contents[k] == cidx && 0 <= cidx < lnk.Length
      modifies lnk, `first, `last, `order, `contents, order`next, order`prev
      ensures Distinct() && Owned() && Linked() && Chained() && Indexed()
      ensures contents == old(contents)[..k] + old(contents)[k + 1..] && |order| == old(|order|) - 1
      ensures l !in order && l !in spare && l in links
    {
      hide BackPointers;
      BackPointersAt(order, contents, lnk[..], k);
      BackPointersRemove(order, contents, lnk[..], k);
      l := lnk[cidx];
      ghost var back := lnk[..];
      lnk[cidx] := null;
      DequeueLnk(l, k);
      contents := contents[..k] + contents[k + 1..];
      assert lnk[..] == back[cidx := null];
      assert Indexed();
    }

    predicate NeedToDefrag()
      reads this
    {
      defrag && count != 0 && nlnks > minchunksize && count <= nfree / 4
    }
  }

  /** after is before without the entry x at position k. */
  ghost predicate Removed(k: int, x: int, before: seq<int>, after: seq<int>) {
    0 <= k < |before| && before[k] == x && after == before[..k] + before[k + 1..]
  }

  lemma BackPointersRotate(order: seq<Lnk>, cs: seq<int>, back: seq<Lnk?>)
    requires BackPointers(order, cs, back) && |cs| > 0
    ensures BackPointers(order[1..] + [order[0]], cs[1..] + [cs[0]], back)
  {
    var cs' := cs[1..] + [cs[0]];
    forall c | c in cs ensures c in cs' {
      var i :| 0 <= i < |cs| && cs[i] == c;
      assert cs'[if i == 0 then |cs| - 1 else i - 1] == c;
    }
  }

  lemma BackPointersNone(back: seq<Lnk?>)
    requires forall c :: 0 <= c < |back| ==> back[c] == null
    ensures BackPointers([], [], back)
  {}

  lemma BackPointersAt(order: seq<Lnk>, cs: seq<int>, back: seq<Lnk?>, k: nat)
    requires BackPointers(order, cs, back) && k < |cs|
    ensures 0 <= cs[k] < |back| && back[cs[k]] == order[k]
  {}
}
