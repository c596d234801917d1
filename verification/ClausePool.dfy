/** The clauses that parallel workers share: one array in production order,
    one cursor per worker, early release, and a collection that shifts both. */
module ClausePool {
  import opened Finite

  /** A shared clause: its producer, its glue, and how many workers passed it. */
  class Cls {
    const wid: nat
    const glue: int
    const lits: seq<int>
    var count: int

    constructor (wid: nat, lits: seq<int>, glue: int)
      ensures this.wid == wid && this.lits == lits && this.glue == glue && count == 0
    {
      this.wid, this.lits, this.glue, count := wid, lits, glue, 0;
    }
  }

  /** What consuming returns: no clause is left, or a copy of one. */
  datatype Consumed = Nothing | Received(lits: seq<int>, glue: int)

  /** When a clause leaves the pool. */
  datatype Limits = Limits(nconsumers: nat, leavebehind: nat, gclim: int) {
    predicate Enough(count: int) { count + leavebehind >= nconsumers }
  }

  /** The pool and its history. Slot k holds clause collected + k of the log. */
  datatype View = Snapshot(
    log: seq<Cls>,             // every clause ever produced, in order
    passed: seq<set<int>>,     // for each clause, who passed it while it was in the pool
    got: seq<seq<int>>,        // for each worker, the clauses it received, in order
    cursors: seq<int>,         // for each worker, the next slot
    dead: seq<Cls?>,           // for each worker, the clause it emptied and still reads
    freed: set<Cls>,
    early: set<int>,           // clauses dropped before enough workers passed them
    first: int, num: int, collected: int,
    peak: int)                 // the most slots the pool ever held

  const LARGE := 10000

  /** The workers whose cursor is beyond slot k. */
  function Passers(cursors: seq<int>, k: int): set<int> {
    set w | 0 <= w < |cursors| && cursors[w] > k
  }

  ghost predicate Increasing(s: seq<int>) {
    forall i, j :: 0 <= i < j < |s| ==> s[i] < s[j]
  }

  // ----- what holds after every step ----------------------------------------

  ghost predicate Bounds(v: View) {
    && 0 <= v.first <= v.num <= v.peak && 0 <= v.collected && |v.log| == |v.passed| == v.collected + v.num
    && |v.got| == |v.cursors| == |v.dead|
    && (forall w :: 0 <= w < |v.cursors| ==> 0 <= v.cursors[w] <= v.num)
    && (forall i, j :: 0 <= i < j < |v.log| ==> v.log[i] != v.log[j])
  }

  /** A live clause was passed exactly by the workers with a cursor beyond its
      slot, and by too few of them to go. */
  ghost predicate Live(r: Limits, v: View)
    requires Bounds(v)
  {
    forall k :: v.first <= k < v.num ==> LiveSlot(r, v, k)
  }

  ghost predicate LiveSlot(r: Limits, v: View, k: int)
    requires Bounds(v) && 0 <= k < v.num
  {
    var p := v.passed[v.collected + k];
    p == Passers(v.cursors, k) && (p == {} || !r.Enough(|p|))
  }

  /** A clause that left was passed by enough workers, or by no more than the limit. */
  ghost predicate Gone(r: Limits, v: View)
    requires Bounds(v)
  {
    && (forall i :: i in v.early ==> 0 <= i < v.collected) && (v.peak <= LARGE ==> v.collected == 0)
    && forall i :: 0 <= i < v.collected + v.first ==> GoneClause(r, v, i)
  }

  ghost predicate GoneClause(r: Limits, v: View, i: int)
    requires 0 <= i < |v.passed|
  {
    && (forall w :: w in v.passed[i] ==> 0 <= w < |v.cursors|)
    && if i in v.early then |v.passed[i]| <= r.gclim else r.Enough(|v.passed[i]|)
  }

  /** How many workers passed the clause in slot k. */
  ghost function Count(v: View, k: int): nat
    requires Bounds(v) && 0 <= k < v.num
  {
    |v.passed[v.collected + k]|
  }

  /** Worker w received, in order and once, exactly the clauses of others that it passed. */
  ghost predicate Delivered(v: View, w: int)
    requires Bounds(v) && 0 <= w < |v.got|
  {
    && Increasing(v.got[w])
    && (forall i :: i in v.got[w] <==> 0 <= i < |v.log| && w in v.passed[i] && v.log[i].wid != w)
    && (forall i :: 0 <= i < |v.log| && w in v.passed[i] ==> i < v.collected + v.cursors[w])
  }

  ghost predicate Deliveries(v: View)
    requires Bounds(v)
  {
    forall w :: 0 <= w < |v.got| ==> Delivered(v, w)
  }

  /** Each clause is in exactly one place: a slot, one worker's hands, or freed. */
  ghost predicate Owned(v: View)
    requires Bounds(v)
  {
    && (forall c :: c in v.freed ==> c in v.log)
    && (forall i :: v.collected + v.first <= i < |v.log| ==> v.log[i] !in v.freed && v.log[i] !in v.dead)
    && (forall i :: 0 <= i < v.collected + v.first ==> (v.log[i] in v.freed <==> v.log[i] !in v.dead))
    && (forall w :: 0 <= w < |v.dead| && v.dead[w] != null ==> v.dead[w] in v.log)
    && (forall w, u :: 0 <= w < u < |v.dead| && v.dead[w] != null ==> v.dead[w] != v.dead[u])
  }

  ghost predicate Sound(r: Limits, v: View) {
    Bounds(v) && Live(r, v) && Gone(r, v) && Deliveries(v) && Owned(v)
  }

  lemma SoundParts(r: Limits, v: View)
    requires Sound(r, v)
    ensures Bounds(v) && Live(r, v) && Owned(v) && Deliveries(v)
    ensures v.peak <= LARGE ==> v.early == {} && v.collected == 0
  {
    if v.peak <= LARGE { assert forall j :: j !in v.early; }
  }

  // ----- the steps -------------------------------------------------------------

  /** A clause is added at the end. */
  ghost function Produced(v: View, c: Cls): View {
    v.(log := v.log + [c], passed := v.passed + [{}], num := v.num + 1, peak := if v.num + 1 > v.peak then v.num + 1 else v.peak)
  }

  lemma ProducedSound(r: Limits, v: View, c: Cls)
    requires Sound(r, v) && c !in v.log && c !in v.dead
    ensures Sound(r, Produced(v, c))
  {
    var t := Produced(v, c);
    assert Bounds(t);
    forall i | 0 <= i < t.collected + t.first ensures GoneClause(r, t, i) { assert GoneClause(r, v, i); }
    forall k | t.first <= k < t.num ensures LiveSlot(r, t, k) {
      if k < v.num { assert LiveSlot(r, v, k); }
    }
    forall w | 0 <= w < |t.got| ensures Delivered(t, w) {
      assert Delivered(v, w);
    }
  }

  /** Worker w moves beyond an emptied slot. */
  ghost function Skipped(v: View, w: int): View
    requires 0 <= w < |v.cursors|
  {
    v.(cursors := v.cursors[w := v.cursors[w] + 1])
  }

  lemma SkippedSound(r: Limits, v: View, w: int)
    requires Sound(r, v) && 0 <= w < |v.cursors| && v.cursors[w] < v.first
    ensures Sound(r, Skipped(v, w))
  {
    var t := Skipped(v, w);
    assert Bounds(t);
    forall i | 0 <= i < t.collected + t.first ensures GoneClause(r, t, i) { assert GoneClause(r, v, i); }
    forall k | t.first <= k < t.num ensures LiveSlot(r, t, k) {
      assert LiveSlot(r, v, k);
      assert Passers(t.cursors, k) == Passers(v.cursors, k);
    }
    forall u | 0 <= u < |t.got| ensures Delivered(t, u) {
      assert Delivered(v, u);
    }
  }

  /** Worker w passes the clause in its next slot, and receives it unless it is its own. */
  ghost function Taken(v: View, w: int): View
    requires Bounds(v) && 0 <= w < |v.cursors| && v.cursors[w] < v.num
  {
    var i := v.collected + v.cursors[w];
    v.(passed := v.passed[i := v.passed[i] + {w}],
       got := if v.log[i].wid == w then v.got else v.got[w := v.got[w] + [i]],
       cursors := v.cursors[w := v.cursors[w] + 1])
  }

  /** The first live slot is emptied into the hands of worker w. */
  ghost function Emptied(v: View, w: int): View
    requires Bounds(v) && 0 <= w < |v.dead| && v.first < v.num
  {
    v.(first := v.first + 1, dead := v.dead[w := v.log[v.collected + v.first]])
  }

  /** Passing a clause, which empties the slot once enough workers passed it. */
  ghost function Passed(r: Limits, v: View, w: int): View
    requires Bounds(v) && 0 <= w < |v.cursors| && v.first <= v.cursors[w] < v.num
  {
    var t := Taken(v, w);
    if r.Enough(|t.passed[v.collected + v.cursors[w]]|) then Emptied(t, w) else t
  }

  lemma TakenBounds(v: View, w: int)
    requires Bounds(v) && 0 <= w < |v.cursors| && v.cursors[w] < v.num
    ensures Bounds(Taken(v, w))
  {}

  lemma TakenLive(r: Limits, v: View, w: int, k: int)
    requires Bounds(v) && Live(r, v) && 0 <= w < |v.cursors| && v.first <= v.cursors[w] < v.num && v.first <= k < v.num
    ensures var t := Taken(v, w); Bounds(t) && t.passed[t.collected + k] == Passers(t.cursors, k)
    ensures k != v.cursors[w] ==> LiveSlot(r, Taken(v, w), k)
  {
    hide Passers;
    TakenBounds(v, w);
    assert LiveSlot(r, v, k);
    PassersMoved(v.cursors, w, k);
  }

  /** One cursor moves by one slot. */
  lemma PassersMoved(cursors: seq<int>, w: int, k: int)
    requires 0 <= w < |cursors|
    ensures Passers(cursors[w := cursors[w] + 1], k) == Passers(cursors, k) + if k == cursors[w] then {w} else {}
  {}

  lemma TakenDelivered(r: Limits, v: View, w: int, u: int)
    requires Bounds(v) && Live(r, v) && 0 <= w < |v.cursors| && v.first <= v.cursors[w] < v.num
    requires 0 <= u < |v.got| && Delivered(v, u)
    ensures Bounds(Taken(v, w)) && Delivered(Taken(v, w), u)
  {
    TakenBounds(v, w);
    var t, i := Taken(v, w), v.collected + v.cursors[w];
    if u == w && v.log[i].wid != w {
      forall j ensures j in t.got[w] <==> j in v.got[w] || j == i {}
      assert forall j :: 0 <= j < |v.got[w]| ==> v.got[w][j] in v.got[w];
    }
  }

  /** The slot that is emptied is the first live one. */
  lemma EmptiesFirst(r: Limits, v: View, w: int)
    requires Bounds(v) && Live(r, v) && 0 <= w < |v.cursors| && v.first <= v.cursors[w] < v.num
    requires r.Enough(|Taken(v, w).passed[v.collected + v.cursors[w]]|)
    ensures v.cursors[w] == v.first
  {
    var t, k := Taken(v, w), v.cursors[w];
    if v.first < k {
      TakenLive(r, v, w, v.first);
      TakenLive(r, v, w, k);
      assert w in Passers(t.cursors, v.first);
      SubsetSize(Passers(t.cursors, k), Passers(t.cursors, v.first));
    }
  }

  lemma PassedSound(r: Limits, v: View, w: int)
    requires Sound(r, v) && 0 <= w < |v.cursors| && v.first <= v.cursors[w] < v.num && v.dead[w] == null
    ensures Sound(r, Passed(r, v, w))
  {
    var t, n := Taken(v, w), Passed(r, v, w);
    TakenBounds(v, w);
    if n != t { EmptiesFirst(r, v, w); }
    assert Bounds(n);
    forall k | n.first <= k < n.num ensures LiveSlot(r, n, k) {
      TakenLive(r, v, w, k);
    }
    forall i | 0 <= i < n.collected + n.first ensures GoneClause(r, n, i) {
      if i < v.collected + v.first { assert GoneClause(r, v, i); } else { TakenLive(r, v, w, v.first); }
    }
    forall u | 0 <= u < |n.got| ensures Delivered(n, u) {
      TakenDelivered(r, v, w, u);
    }
    assert Owned(n) by { PassedOwned(r, v, w); }
  }

  lemma PassedOwned(r: Limits, v: View, w: int)
    requires Bounds(v) && Owned(v) && 0 <= w < |v.cursors| && v.first <= v.cursors[w] < v.num && v.dead[w] == null
    ensures Bounds(Passed(r, v, w)) && Owned(Passed(r, v, w))
  {
    TakenBounds(v, w);
    var n := Passed(r, v, w);
    assert Bounds(n);
    if n.first > v.first {
      var x := v.log[v.collected + v.first];
      forall c: Cls | c in v.log ensures c in n.dead <==> c in v.dead || c == x {
        if c in v.dead { var u :| 0 <= u < |v.dead| && v.dead[u] == c; assert n.dead[u] == c; }
        assert n.dead[w] == x;
      }
    }
  }

  lemma TakenCount(r: Limits, v: View, w: int)
    requires Bounds(v) && Live(r, v) && 0 <= w < |v.cursors| && v.first <= v.cursors[w] < v.num
    ensures var i := v.collected + v.cursors[w]; |Taken(v, w).passed[i]| == |v.passed[i]| + 1
  {
    assert LiveSlot(r, v, v.cursors[w]);
  }

  lemma PassedParts(r: Limits, v: View, w: int)
    requires Bounds(v) && Live(r, v) && 0 <= w < |v.cursors| && v.first <= v.cursors[w] < v.num
    ensures var t := Taken(v, w);
            && t.log == v.log && t.first == v.first && t.num == v.num && t.collected == v.collected && t.dead == v.dead
            && |t.passed| == |v.passed| && Bounds(t)
            && if r.Enough(|t.passed[v.collected + v.cursors[w]]|) then v.cursors[w] == v.first && Passed(r, v, w) == Emptied(t, w)
               else Passed(r, v, w) == t
  {
    TakenBounds(v, w);
    if r.Enough(|Taken(v, w).passed[v.collected + v.cursors[w]]|) { EmptiesFirst(r, v, w); }
  }

  /** The pool is large, and more than its share of slots is empty. */
  ghost predicate Crowded(r: Limits, v: View) {
    v.num > LARGE && v.first > v.num / (r.nconsumers + 1)
  }

  /** What passing a slot does: nothing but moving on, or taking the clause, followed by a
      collection exactly when this empties the slot of a crowded pool. */
  ghost predicate PassResult(r: Limits, v: View, w: int, t: View, cls: Cls?)
    requires Bounds(v) && 0 <= w < |v.cursors| && v.cursors[w] < v.num
  {
    if v.cursors[w] < v.first then cls == null && t == Skipped(v, w)
    else
      && cls == v.log[v.collected + v.cursors[w]]
      && var p := Passed(r, v, w);
         if p.first > v.first && Crowded(r, p) then Bounds(p) && t == Collected(p, Stop(r, p, p.first)) else t == p
  }

  /** The cursors once the first k slots are gone. */
  function Shifted(cursors: seq<int>, k: int): (r: seq<int>)
    ensures |r| == |cursors|
  {
    seq(|cursors|, w requires 0 <= w < |cursors| => if k < cursors[w] then cursors[w] - k else 0)
  }

  ghost predicate Known(v: View, i: int) { 0 <= i < |v.log| }

  /** The first k slots go, and the clauses still in them are freed early. */
  ghost function Collected(v: View, k: int): View
    requires Bounds(v) && v.first <= k <= v.num
  {
    v.(freed := v.freed + (set i | v.collected + v.first <= i < v.collected + k :: v.log[i]),
       early := v.early + (set i | v.collected + v.first <= i < v.collected + k && Known(v, i)),
       first := 0, num := v.num - k, collected := v.collected + k, cursors := Shifted(v.cursors, k))
  }

  lemma CollectedNone(v: View)
    requires Bounds(v)
    ensures Collected(v, v.first).freed == v.freed
  {}

  lemma CollectedParts(v: View, k: int)
    requires Bounds(v) && v.first <= k <= v.num
    ensures var t := Collected(v, k);
            t == v.(freed := t.freed, early := t.early, cursors := Shifted(v.cursors, k),
                    first := 0, num := v.num - k, collected := v.collected + k)
  {}

  lemma CollectedNext(v: View, k: int)
    requires Bounds(v) && Owned(v) && v.first <= k < v.num
    ensures Collected(v, k + 1).freed == Collected(v, k).freed + {v.log[v.collected + k]}
    ensures v.log[v.collected + k] !in Collected(v, k).freed
  {}

  /** Where the collection stops: at the first live clause above the limit. */
  ghost function Stop(r: Limits, v: View, k: int): (e: int)
    requires Bounds(v) && v.first <= k <= v.num
    ensures k <= e <= v.num && (e == v.num || Count(v, e) > r.gclim)
    ensures forall j :: k <= j < e ==> Count(v, j) <= r.gclim
    decreases v.num - k
  {
    if k == v.num || Count(v, k) > r.gclim then k else Stop(r, v, k + 1)
  }

  lemma StopNext(r: Limits, v: View, k: int)
    requires Bounds(v) && v.first <= k < v.num
    ensures Stop(r, v, k) == if Count(v, k) > r.gclim then k else Stop(r, v, k + 1)
  {}

  /** Counts never grow along the slots, so a collection frees no live clause or all of them. */
  lemma AllOrNothing(r: Limits, v: View)
    requires Sound(r, v)
    ensures Stop(r, v, v.first) == v.first || Stop(r, v, v.first) == v.num
  {
    var e := Stop(r, v, v.first);
    if v.first < e < v.num {
      assert LiveSlot(r, v, v.first) && LiveSlot(r, v, e);
      SubsetSize(Passers(v.cursors, e), Passers(v.cursors, v.first));
    }
  }

  lemma CollectedSound(r: Limits, v: View, k: int)
    requires Sound(r, v) && v.first <= k <= v.num && v.num > LARGE
    requires forall j :: v.first <= j < k ==> Count(v, j) <= r.gclim
    ensures Sound(r, Collected(v, k))
  {
    var t := Collected(v, k);
    assert Bounds(t);
    forall j | t.first <= j < t.num ensures LiveSlot(r, t, j) {
      assert LiveSlot(r, v, j + k);
      assert Passers(t.cursors, j) == Passers(v.cursors, j + k);
    }
    forall w | 0 <= w < |t.got| ensures Delivered(t, w) {
      assert Delivered(v, w);
    }
    forall i | 0 <= i < t.collected ensures GoneClause(r, t, i) {
      if i < v.collected + v.first { assert GoneClause(r, v, i); } else {
        assert Count(v, i - v.collected) <= r.gclim && LiveSlot(r, v, i - v.collected);
      }
    }
  }

  /** Worker w lets go of the clause it holds. */
  ghost function Dropped(v: View, w: int): View
    requires 0 <= w < |v.dead|
  {
    if v.dead[w] == null then v else v.(freed := v.freed + {v.dead[w]}, dead := v.dead[w := null])
  }

  lemma DroppedSound(r: Limits, v: View, w: int)
    requires Sound(r, v) && 0 <= w < |v.dead|
    ensures Sound(r, Dropped(v, w))
    ensures v.dead[w] != null ==> v.dead[w] !in v.freed
  {
    var t := Dropped(v, w);
    assert Bounds(t);
    forall u | 0 <= u < |t.got| ensures Delivered(t, u) { assert Delivered(v, u); }
    forall k | t.first <= k < t.num ensures LiveSlot(r, t, k) { assert LiveSlot(r, v, k); }
    forall i | 0 <= i < t.collected + t.first ensures GoneClause(r, t, i) { assert GoneClause(r, v, i); }
    if v.dead[w] != null {
      forall c: Cls | c in v.log ensures c in t.dead <==> c in v.dead && c != v.dead[w] {
        if c in v.dead { var u :| 0 <= u < |v.dead| && v.dead[u] == c; assert u != w ==> t.dead[u] == c; }
      }
    }
  }

  // ----- what the workers have seen ----------------------------------------------

  /** If every worker must pass a clause, each has received every clause of the
      others that left the pool, unless a collection dropped it. */
  lemma Complete(r: Limits, v: View, w: int, i: int)
    requires Sound(r, v) && 0 <= w < |v.cursors| && 0 <= i < v.collected + v.first && i !in v.early
    requires r.leavebehind == 0 && r.nconsumers >= |v.cursors|
    ensures v.log[i].wid != w ==> i in v.got[w]
  {
    assert GoneClause(r, v, i) && Delivered(v, w);
    if w !in v.passed[i] { Missing(v.passed[i], w, |v.cursors|); }
  }

  /** While a pool never holds more slots than is large, nothing is dropped early: there, if every worker
      must pass a clause, each has received every clause of the others that left. */
  lemma SmallComplete(r: Limits, v: View, w: int, i: int)
    requires Sound(r, v) && v.peak <= LARGE && 0 <= w < |v.cursors| && 0 <= i < v.first
    requires r.leavebehind == 0 && r.nconsumers >= |v.cursors|
    ensures v.early == {} && v.collected == 0 && (v.log[i].wid != w ==> i in v.got[w])
  {
    SoundParts(r, v);
    Complete(r, v, w, i);
  }

  lemma AllReceived(r: Limits, v: View)
    requires Sound(r, v)
    ensures v.peak <= LARGE ==> v.early == {} && v.collected == 0
    ensures v.peak <= LARGE && r.leavebehind == 0 && r.nconsumers >= |v.got| ==>
              forall w, i :: 0 <= w < |v.got| && 0 <= i < v.first ==> v.log[i].wid != w ==> i in v.got[w]
  {
    SoundParts(r, v);
    if v.peak <= LARGE && r.leavebehind == 0 && r.nconsumers >= |v.got| {
      forall w, i | 0 <= w < |v.got| && 0 <= i < v.first ensures v.log[i].wid != w ==> i in v.got[w] {
        SmallComplete(r, v, w, i);
      }
    }
  }

  lemma {:induction false} Missing(s: set<int>, w: int, n: nat)
    requires w !in s && 0 <= w < n && forall x :: x in s ==> 0 <= x < n
    ensures |s| < n
  {
    if w == n - 1 { Below(s, n - 1); } else { Missing(s - {n - 1}, w, n - 1); }
  }

  lemma FreedKeeps(v: View, freed: set<Cls>)
    requires Bounds(v) && Deliveries(v)
    ensures var t := v.(freed := freed); Bounds(t) && Deliveries(t)
  {
    forall w | 0 <= w < |v.got| ensures Delivered(v.(freed := freed), w) { assert Delivered(v, w); }
  }

  // ----- what one call of the consumer skips ------------------------------------

  /** Up to v since v0, worker w received nothing, and every clause that left the
      pool or that w passed was early or its own, or had left the pool before. */
  ghost predicate Explained(r: Limits, v0: View, v: View, w: int)
    requires Bounds(v0) && Bounds(v) && 0 <= w < |v.cursors| && w < |v0.cursors|
  {
    && v.log == v0.log && v.got == v0.got && v.peak == v0.peak && v.num <= v0.num && v0.early <= v.early
    && (v.early != v0.early ==> v0.num > LARGE && Overcrowded(r, v))
    && v0.collected + v0.cursors[w] <= v.collected + v.cursors[w]
    && (forall j :: v0.collected + v0.first <= j < v.collected + v.first ==> j in v.early || v.log[j].wid == w)
    && (forall j :: v0.collected + v0.cursors[w] <= j < v.collected + v.cursors[w] ==>
          j < v0.collected + v0.first || j in v.early || v.log[j].wid == w)
  }

  /** At some time since clause `base` was the first in the pool, the pool was large, and more
      than a share of its slots had been emptied by enough workers passing them. */
  ghost predicate Overcrowded(r: Limits, v: View)
    requires Bounds(v)
  {
    exists base, k :: OvercrowdedAt(r, v, base, k)
  }

  ghost predicate OvercrowdedAt(r: Limits, v: View, base: int, k: int)
    requires Bounds(v)
  {
    && 0 <= base && 0 <= k && base + k <= v.collected + v.first
    && |v.log| - base > LARGE && k > (|v.log| - base) / (r.nconsumers + 1)
    && forall j :: base <= j < base + k ==> j !in v.early && r.Enough(|v.passed[j]|)
  }

  /** What has left the pool stays as it was. */
  lemma OvercrowdedStays(r: Limits, v: View, t: View)
    requires Bounds(v) && Bounds(t) && Overcrowded(r, v) && t.log == v.log && v.collected + v.first <= t.collected + t.first
    requires forall j :: 0 <= j < v.collected + v.first ==> t.passed[j] == v.passed[j] && (j in t.early ==> j in v.early)
    ensures Overcrowded(r, t)
  {
    var base, k :| OvercrowdedAt(r, v, base, k);
    assert OvercrowdedAt(r, t, base, k);
  }

  lemma CrowdedIs(r: Limits, v: View, k: int)
    requires Sound(r, v) && Crowded(r, v) && v.first <= k <= v.num
    ensures Bounds(Collected(v, k)) && Overcrowded(r, Collected(v, k))
  {
    var t := Collected(v, k);
    forall j | v.collected <= j < v.collected + v.first ensures j !in t.early && r.Enough(|t.passed[j]|) {
      assert GoneClause(r, v, j);
    }
    assert OvercrowdedAt(r, t, v.collected, v.first);
  }

  lemma ExplainedFirst(r: Limits, v: View, w: int)
    requires Bounds(v) && 0 <= w < |v.cursors|
    ensures Explained(r, v, v, w)
  {}

  lemma ExplainedDrop(r: Limits, v0: View, v: View, w: int)
    requires Bounds(v0) && Bounds(v) && 0 <= w < |v.cursors| && w < |v0.cursors| && Explained(r, v0, v, w)
    ensures Bounds(Dropped(v, w)) && Explained(r, v0, Dropped(v, w), w)
  {
    if v.early != v0.early { OvercrowdedStays(r, v, Dropped(v, w)); }
  }

  lemma ExplainedLast(r: Limits, v0: View, v: View, w: int)
    requires Bounds(v0) && Bounds(v) && 0 <= w < |v.cursors| && w < |v0.cursors| && Explained(r, v0, v, w) && v.cursors[w] == v.num
    ensures v.got == v0.got && v0.collected + v0.cursors[w] <= |v.log| && (v.early != v0.early ==> v0.num > LARGE && Overcrowded(r, v))
    ensures forall j :: v0.collected + v0.cursors[w] <= j < |v.log| ==>
              j < v0.collected + v0.first || j in v.early || v.log[j].wid == w
  {}

  lemma ExplainedCollect(r: Limits, v0: View, v: View, w: int, k: int)
    requires Bounds(v0) && Bounds(v) && 0 <= w < |v.cursors| && w < |v0.cursors| && Explained(r, v0, v, w) && v.first <= k <= v.num
    requires Sound(r, v) && Crowded(r, v)
    ensures Bounds(Collected(v, k)) && Explained(r, v0, Collected(v, k), w)
  {
    CrowdedIs(r, v, k);
    var t := Collected(v, k);
    assert forall j :: v.collected + v.first <= j < v.collected + k ==> j in t.early;
    assert t.cursors[w] == if k < v.cursors[w] then v.cursors[w] - k else 0;
  }

  lemma TakenOwn(r: Limits, v0: View, v: View, w: int)
    requires Bounds(v0) && Sound(r, v) && 0 <= w < |v.cursors| && w < |v0.cursors| && v.first <= v.cursors[w] < v.num
    requires Explained(r, v0, v, w) && v.log[v.collected + v.cursors[w]].wid == w
    ensures var p := Passed(r, v, w);
            && Bounds(p) && Explained(r, v0, p, w) && |p.cursors| == |v.cursors| && p.log == v.log && p.num == v.num
            && p.cursors[w] == v.cursors[w] + 1
  {
    hide Overcrowded;
    PassedParts(r, v, w);
    var p := Passed(r, v, w);
    assert Bounds(p);
    if v.early != v0.early { OvercrowdedStays(r, v, p); }
  }

  lemma PassedOwn(r: Limits, v0: View, v: View, w: int, t: View, cls: Cls?)
    requires Bounds(v0) && Sound(r, v) && 0 <= w < |v.cursors| && w < |v0.cursors| && v.cursors[w] < v.num && v.dead[w] == null
    requires Explained(r, v0, v, w) && PassResult(r, v, w, t, cls) && Bounds(t) && (cls == null || cls.wid == w)
    ensures |t.cursors| == |v.cursors| && Explained(r, v0, t, w) && t.log == v.log
    ensures t.num - t.cursors[w] < v.num - v.cursors[w]
  {
    hide Overcrowded, Owned, Deliveries, Gone, Live;
    if v.first <= v.cursors[w] {
      TakenOwn(r, v0, v, w);
      var p := Passed(r, v, w);
      if p.first > v.first && Crowded(r, p) {
        PassedSound(r, v, w);
        ExplainedCollect(r, v0, p, w, Stop(r, p, p.first));
      }
    } else if v.early != v0.early {
      OvercrowdedStays(r, v, t);
    }
  }

  lemma PassedOther(r: Limits, v0: View, v: View, w: int, t: View, cls: Cls)
    requires Bounds(v0) && Sound(r, v) && 0 <= w < |v.cursors| && w < |v0.cursors| && v.cursors[w] < v.num && v.dead[w] == null
    requires Explained(r, v0, v, w) && PassResult(r, v, w, t, cls) && Bounds(t) && cls.wid != w
    ensures var i := v.collected + v.cursors[w];
            && t.log == v.log == v0.log && t.log[i] == cls && t.got == v0.got[w := v0.got[w] + [i]]
            && v0.collected + v0.cursors[w] <= i
            && forall j :: v0.collected + v0.cursors[w] <= j < i ==>
                 j < v0.collected + v0.first || j in t.early || v.log[j].wid == w
    ensures t.early != v0.early ==> v0.num > LARGE && Overcrowded(r, t)
  {
    PassedParts(r, v, w);
    var p := Passed(r, v, w);
    assert Bounds(p);
    if p.first > v.first && Crowded(r, p) {
      PassedSound(r, v, w);
      CrowdedIs(r, p, Stop(r, p, p.first));
    } else if v.early != v0.early {
      OvercrowdedStays(r, v, p);
    }
  }

  // ----- the shared state, changed under its lock ------------------------------

  class Pool {
    const limits: Limits
    const clsimported: array<int>
    const dead: array<Cls?>
    var start: array<Cls?>
    var first: int
    var num: int
    var added: int
    var collected: int
    ghost var log: seq<Cls>
    ghost var passed: seq<set<int>>
    ghost var got: seq<seq<int>>
    ghost var freed: set<Cls>
    ghost var early: set<int>
    ghost var peak: int

    ghost function Now(): View
      reads this, clsimported, dead
    {
      Snapshot(log, passed, got, clsimported[..], dead[..], freed, early, first, num, collected, peak)
    }

    /** The emptied slots are the first ones; the others hold their clause. */
    ghost predicate Slots()
      reads `start, `first, `num, `collected, `log, start
    {
      && 0 <= first <= num <= start.Length && 0 <= collected && |log| == collected + num && start != dead
      && forall k :: 0 <= k < num ==> start[k] == if k < first then null else log[collected + k]
    }

    /** Every counter is the number of workers that passed the clause. */
    ghost predicate Counts()
      reads `log, `passed, log
    {
      |passed| == |log| && forall i :: 0 <= i < |log| ==> log[i].count == |passed[i]|
    }

    ghost predicate Valid()
      reads this, start, clsimported, dead, log
    {
      Sound(limits, Now()) && Slots() && Counts() && added == |log|
    }

    constructor (nworkers: nat, limits: Limits)
      ensures Valid() && fresh(start) && fresh(clsimported) && fresh(dead) && this.limits == limits
      ensures Now() == Snapshot([], [], seq(nworkers, _ => []), seq(nworkers, _ => 0), seq(nworkers, _ => null), {}, {}, 0, 0, 0, 0)
    {
      this.limits := limits;
      clsimported := new int[nworkers](_ => 0);
      dead := new Cls?[nworkers](_ => null);
      start := new Cls?[0];
      first, num, added, collected := 0, 0, 0, 0;
      log, passed, got, freed, early, peak := [], [], seq(nworkers, _ => []), {}, {}, 0;
      new;
      assert clsimported[..] == seq(nworkers, _ => 0);
      assert dead[..] == seq(nworkers, _ => null);
      assert forall w :: 0 <= w < nworkers ==> Delivered(Now(), w);
    }

    /** Doubles the array of slots. */
    method Resize()
      requires Slots() && num == start.Length
      modifies `start
      ensures Slots() && fresh(start) && num < start.Length
    {
      var old_start := start;
      var bigger := new Cls?[if old_start.Length == 0 then 1 else 2 * old_start.Length](_ => null);
      for k := 0 to num
        invariant start == old_start
        invariant forall j :: 0 <= j < k ==> bigger[j] == start[j]
      {
        bigger[k] := start[k];
      }
      start := bigger;
    }

    /** Worker wid adds a copy of its clause at the end. */
    method ProduceCls(wid: nat, lits: seq<int>, glue: int) returns (ghost c: Cls)
      requires Valid()
      modifies `start, `num, `added, `log, `passed, `peak, start
      ensures Valid() && (start == old(start) || fresh(start)) && fresh(c) && c.wid == wid && c.lits == lits && c.glue == glue
      ensures Now() == Produced(old(Now()), c)
    {
      hide Sound, Slots, Counts, Produced;
      var cls := new Cls(wid, lits, glue);
      c := cls;
      ProducedSound(limits, Now(), c);
      MakeRoom();
      Append(cls);
    }

    method MakeRoom()
      requires Slots()
      modifies `start
      ensures Slots() && num < start.Length && (start == old(start) || fresh(start))
    {
      if num == start.Length { Resize(); }
    }

    /** The clause goes into the next slot. */
    method Append(cls: Cls)
      requires Slots() && Counts() && added == |log| && cls.count == 0 && num < start.Length
      modifies `num, `added, `log, `passed, `peak, start
      ensures Slots() && Counts() && added == |log| && Now() == Produced(old(Now()), cls)
    {
      start[num] := cls;
      num, added, log, passed, peak := num + 1, added + 1, log + [cls], passed + [{}], if num + 1 > peak then num + 1 else peak;
    }

    method DropDead(wid: nat)
      requires Valid() && wid < dead.Length
      modifies `freed, dead
      ensures Valid() && Now() == Dropped(old(Now()), wid)
    {
      hide Sound;
      DroppedSound(limits, Now(), wid);
      var cls := dead[wid];
      if cls != null {
        DeleteCls(cls);
        dead[wid] := null;
      }
      assert Now() == Dropped(old(Now()), wid);
    }

    /** Frees a clause, which must not be freed already. */
    method DeleteCls(cls: Cls)
      requires cls !in freed
      modifies `freed
      ensures freed == old(freed) + {cls}
    {
      freed := freed + {cls};
    }

    /** Frees the clauses few workers passed, and shifts the others and the cursors down. */
    method Gcls()
      requires Valid() && num > LARGE
      modifies `first, `num, `collected, `freed, `early, start, clsimported
      ensures Valid() && Now() == Collected(old(Now()), Stop(limits, old(Now()), old(first)))
    {
      hide Sound, Live, Gone, Deliveries, Owned, Counts, Stop, Collected, Shifted, Count, Bounds, Rest, Slots;
      ghost var v := Now();
      SoundParts(limits, v);
      RestStart(v);
      var k := FreeFew(v);
      RestIs(v, k);
      SlotSizes(v, k);
      CollectedSound(limits, v, k);
      ShiftDown(k, v);
    }

    /** The first k slots go, the others and the cursors move down. */
    method ShiftDown(k: int, ghost v: View)
      requires Bounds(v) && 0 <= v.first <= k <= v.num == num <= start.Length && 0 <= collected && |log| == collected + num && start != dead
      requires Now() == v.(freed := freed) && freed == Collected(v, k).freed
      requires forall j :: k <= j < num ==> start[j] == log[collected + j]
      modifies `first, `num, `collected, `early, start, clsimported
      ensures Slots() && Now() == Collected(v, k)
    {
      hide Collected, Shifted, Bounds, Slots;
      CollectedParts(v, k);
      early := Collected(v, k).early;
      ShiftCursors(k);
      MoveSlots(k);
      collected, first, num := collected + k, 0, num - k;
      SlotsMoved();
    }

    lemma SlotSizes(v: View, k: int)
      requires Rest(v, k) && v.log == log && v.num == num && v.collected == collected
      ensures 0 <= k <= num <= start.Length && 0 <= collected && |log| == collected + num
      ensures forall j :: k <= j < num ==> start[j] == log[collected + j]
    {}

    lemma SlotsMoved()
      requires first == 0 && 0 <= num <= start.Length && 0 <= collected && |log| == collected + num && start != dead
      requires forall j :: 0 <= j < num ==> start[j] == log[collected + j]
      ensures Slots()
    {}

    /** Frees the live clauses up to the first above the limit. */
    method FreeFew(ghost v: View) returns (k: int)
      requires v.first == first && v.num == num && Bounds(v) && Owned(v) && Rest(v, first) && first <= num
      modifies `freed, start
      ensures k == Stop(limits, v, v.first) && Rest(v, k)
    {
      hide Bounds, Owned, Stop, Collected, Rest, Count;
      k := first;
      while k < num
        invariant first <= k <= num && Rest(v, k) && Stop(limits, v, k) == Stop(limits, v, v.first)
      {
        StopNext(limits, v, k);
        var stop := FreeSlot(k, v);
        if stop { break; }
        k := k + 1;
      }
    }

    lemma RestStart(v: View)
      requires v == Now() && Bounds(v) && Owned(v) && Slots() && Counts()
      ensures first <= num && Rest(v, first) && start != dead
    {
      CollectedNone(v);
      hide Bounds, Owned, Collected;
    }

    lemma RestIs(v: View, k: int)
      requires Rest(v, k)
      ensures freed == Collected(v, k).freed
      ensures forall j :: k <= j < v.num <= start.Length && 0 <= v.collected + j < |v.log| ==> start[j] == v.log[v.collected + j]
    {}

    /** The slots from k on still hold their clauses, and those before are freed. */
    ghost predicate Rest(v: View, k: int)
      reads `start, `freed, start, v.log
    {
      && Bounds(v) && v.first <= k <= v.num <= start.Length && freed == Collected(v, k).freed
      && forall j :: k <= j < v.num ==> start[j] == v.log[v.collected + j] && v.log[v.collected + j].count == Count(v, j)
    }

    method FreeSlot(k: int, ghost v: View) returns (stop: bool)
      requires Rest(v, k) && Owned(v) && k < v.num
      modifies `freed, start
      ensures stop <==> Count(v, k) > limits.gclim
      ensures Rest(v, if stop then k else k + 1)
    {
      hide Owned, Collected;
      var c := start[k];
      stop := c.count > limits.gclim;
      if !stop {
        CollectedNext(v, k);
        start[k] := null;
        DeleteCls(c);
      }
    }

    method ShiftCursors(k: int)
      requires 0 <= k
      modifies clsimported
      ensures clsimported[..] == Shifted(old(clsimported[..]), k)
    {
      for i := 0 to clsimported.Length
        invariant forall w :: 0 <= w < i ==> clsimported[w] == Shifted(old(clsimported[..]), k)[w]
        invariant forall w :: i <= w < clsimported.Length ==> clsimported[w] == old(clsimported[w])
      {
        clsimported[i] := if k < clsimported[i] then clsimported[i] - k else 0;
      }
    }

    method MoveSlots(k: int)
      requires 0 <= k <= num <= start.Length
      modifies start
      ensures forall j :: 0 <= j < num - k ==> start[j] == old(start[k + j])
    {
      var j := 0;
      for l := k to num
        invariant j == l - k
        invariant forall i :: 0 <= i < j ==> start[i] == old(start[k + i])
        invariant forall i :: l <= i < num ==> start[i] == old(start[i])
      {
        start[j] := start[l];
        j := j + 1;
      }
    }

    /** Worker wid passes the live clause in its slot, and its counter says so. */
    method Take(wid: nat, cls: Cls)
      requires Bounds(Now()) && Live(limits, Now()) && Counts() && wid < clsimported.Length
      requires first <= clsimported[wid] < num && cls == log[collected + clsimported[wid]]
      modifies `passed, `got, clsimported, cls
      ensures Now() == Taken(old(Now()), wid) && Counts()
      ensures cls.count == |passed[collected + old(clsimported[wid])]|
    {
      ghost var v := Now();
      TakenCount(limits, v, wid);
      hide Live;
      clsimported[wid] := clsimported[wid] + 1;
      cls.count := cls.count + 1;
      passed, got := Taken(v, wid).passed, Taken(v, wid).got;
    }

    /** The first live slot is emptied into the hands of worker wid. */
    method EmptySlot(wid: nat, res: int, cls: Cls)
      requires Slots() && Counts() && Bounds(Now()) && wid < dead.Length && res == first < num && cls == start[res]
      modifies `first, start, dead
      ensures Slots() && Counts() && Now() == Emptied(old(Now()), wid) && first == old(first) + 1
    {
      start[res] := null;
      dead[wid] := cls;
      first := first + 1;
    }

    /** Worker wid passes a live clause, and empties its slot when enough workers have. */
    method PassLive(wid: nat, res: int, cls: Cls) returns (emptied: bool)
      requires Valid() && wid < clsimported.Length && res == clsimported[wid] < num && dead[wid] == null
      requires first <= res && cls == log[collected + res]
      modifies `first, `passed, `got, start, clsimported, dead, cls
      ensures Valid() && Now() == Passed(limits, old(Now()), wid) && (emptied <==> first > old(first))
    {
      hide Sound, Live, Gone, Deliveries, Owned, Taken, Passed, Bounds, Counts, Emptied;
      ghost var v := Now();
      SoundParts(limits, v);
      PassedSound(limits, v, wid);
      PassedParts(limits, v, wid);
      Take(wid, cls);
      assert Slots();
      emptied := limits.Enough(cls.count);
      if emptied { EmptySlot(wid, res, cls); }
    }

    lemma SlotIs(wid: nat)
      requires Valid() && wid < clsimported.Length && clsimported[wid] < num
      ensures 0 <= clsimported[wid] < start.Length && (start[clsimported[wid]] == null <==> clsimported[wid] < first)
      ensures clsimported[wid] >= first ==> start[clsimported[wid]] == log[collected + clsimported[wid]]
    {}

    /** Moves the cursor of worker wid by one slot, and returns the clause that was in it. */
    method Pass(wid: nat) returns (cls: Cls?)
      requires Valid() && wid < clsimported.Length && clsimported[wid] < num && dead[wid] == null
      modifies `first, `num, `collected, `freed, `early, `passed, `got, start, clsimported, dead, log
      ensures Valid() && PassResult(limits, old(Now()), wid, Now(), cls)
    {
      hide Valid, Sound, Taken, Passed, Collected, Stop, Bounds, Skipped;
      ghost var v := Now();
      SlotIs(wid);
      Standing();
      var res := clsimported[wid];
      cls := start[res];
      if cls == null {
        Skip(wid);
        return;
      }
      var emptied := PassLive(wid, res, cls);
      Standing();
      if emptied && num > LARGE && first > num / (limits.nconsumers + 1) { Gcls(); }
    }

    lemma Standing()
      requires Valid()
      ensures Bounds(Now()) && 0 <= first <= num
    {}

    /** Worker wid moves beyond an emptied slot. */
    method Skip(wid: nat)
      requires Valid() && wid < clsimported.Length && clsimported[wid] < first
      modifies clsimported
      ensures Valid() && Now() == Skipped(old(Now()), wid)
    {
      hide Sound;
      ghost var v := Now();
      SkippedSound(limits, v, wid);
      clsimported[wid] := clsimported[wid] + 1;
      assert Now() == Skipped(v, wid);
    }

    /** The next clause of another worker that is still in the pool, or nothing if none is left. */
    method ConsumeCls(wid: nat) returns (r: Consumed, ghost i: int)
      requires Valid() && wid < clsimported.Length
      modifies `first, `num, `collected, `freed, `early, `passed, `got, start, clsimported, dead, log
      ensures Valid() && log == old(log) && start == old(start)
      ensures if r.Nothing? then i == |log| && got == old(got) && clsimported[wid] == num
              else 0 <= i < |log| && log[i].wid != wid && r == Received(log[i].lits, log[i].glue)
                   && got == old(got)[wid := old(got[wid]) + [i]]
      ensures old(collected + clsimported[wid]) <= i
      ensures forall j :: old(collected + clsimported[wid]) <= j < i ==>
                0 <= j < |log| && (j < old(collected + first) || j in early || log[j].wid == wid)
      ensures early != old(early) ==> old(num) > LARGE && Bounds(Now()) && Overcrowded(limits, Now())
      ensures peak == old(peak) && (peak <= LARGE ==> early == {} && collected == 0)
    {
      hide Sound, Slots, Counts, Passed, Collected, Explained, PassResult, Live, Owned, Bounds, Overcrowded;
      ghost var v0 := Now();
      SoundParts(limits, v0);
      ExplainedFirst(limits, v0, wid);
      while true
        invariant Valid() && Bounds(Now()) && wid < clsimported.Length == dead.Length && Explained(limits, v0, Now(), wid) && log == v0.log
        decreases num - clsimported[wid]
      {
        ghost var v := Now();
        DropDead(wid);
        SoundParts(limits, Now());
        ExplainedDrop(limits, v0, v, wid);
        if clsimported[wid] == num {
          ExplainedLast(limits, v0, Now(), wid);
          return Nothing, |log|;
        }
        v := Now();
        var cls := Pass(wid);
        SoundParts(limits, Now());
        if cls != null && cls.wid != wid {
          i := v.collected + v.cursors[wid];
          PassedOther(limits, v0, v, wid, Now(), cls);
          return Received(cls.lits, cls.glue), i;
        }
        PassedOwn(limits, v0, v, wid, Now(), cls);
      }
    }

    /** No worker holds a clause any more. */
    method ReleaseDead()
      requires Valid()
      modifies `freed, dead
      ensures Valid() && Now() == old(Now()).(freed := freed, dead := dead[..])
      ensures forall w :: 0 <= w < dead.Length ==> dead[w] == null
    {
      hide Valid;
      for i := 0 to dead.Length
        invariant Valid() && Now() == old(Now()).(freed := freed, dead := dead[..])
        invariant forall j :: 0 <= j < i ==> dead[j] == null
      {
        DropDead(i);
      }
    }

    /** Then every clause is freed or in a slot. */
    lemma ReleaseParts(v: View)
      requires Valid() && v == Now() && forall w :: 0 <= w < dead.Length ==> dead[w] == null
      ensures Slots() && Bounds(v) && Deliveries(v) && Owned(v)
      ensures forall c :: c in freed <==> c in log[..collected + first]
      ensures forall i, j :: 0 <= i < j < |log| ==> log[i] != log[j]
    {
      hide Sound, Counts;
      SoundParts(limits, v);
      assert forall c: Cls :: c !in v.dead;
    }

    /** At the end every clause is freed, whichever place it was in. */
    method Release()
      requires Valid()
      modifies `freed, dead
      ensures forall c :: c in freed <==> c in log
      ensures log == old(log) && got == old(got) && Bounds(Now()) && Deliveries(Now())
      ensures early == old(early) && peak == old(peak) && first == old(first)
    {
      hide Valid, Owned, Bounds, Deliveries;
      ReleaseDead();
      ghost var v := Now();
      ReleaseParts(v);
      for i := first to num
        invariant Now() == v.(freed := freed)
        invariant forall c :: c in freed <==> c in log[..collected + i]
      {
        var c := start[i];
        assert c == log[collected + i];
        DeleteCls(c);
        assert log[..collected + i + 1] == log[..collected + i] + [c];
      }
      FreedKeeps(v, freed);
    }
  }

  /** Any interleaving of production and consumption, up to the release of
      everything: all clauses are freed, none twice, and every worker received
      in order and once exactly those of the others that it passed. */
  method Run(nworkers: nat, limits: Limits, budget: nat) returns (p: Pool)
    requires nworkers > 0
    ensures fresh(p) && (forall c :: c in p.freed <==> c in p.log)
    ensures Bounds(p.Now()) && |p.got| == nworkers && forall w :: 0 <= w < nworkers ==> Delivered(p.Now(), w)
    ensures p.peak <= LARGE ==> p.early == {} && p.collected == 0
    ensures p.peak <= LARGE && limits.leavebehind == 0 && limits.nconsumers >= nworkers ==>
              forall w, i :: 0 <= w < nworkers && 0 <= i < p.first ==> p.log[i].wid != w ==> i in p.got[w]
  {
    hide Sound, Delivered, Dropped, Passed, Collected;
    p := new Pool(nworkers, limits);
    for step := 0 to budget
      invariant fresh(p) && fresh(p.start) && fresh(p.clsimported) && fresh(p.dead) && p.Valid() && |p.got| == nworkers
      invariant forall k :: 0 <= k < |p.log| ==> fresh(p.log[k])
    {
      var w: nat :| w < nworkers;
      if * {
        var lits, glue :| true;
        ghost var c := p.ProduceCls(w, lits, glue);
      } else {
        var r, i := p.ConsumeCls(w);
      }
    }
    AllReceived(limits, p.Now());
    p.Release();
  }
}
