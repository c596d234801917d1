/** Top-level unit propagation with two watched literals, and the in-place
    compaction of the clause stack that follows it. */
module Propagation {
  import opened Cnf

  // ----- values and watch lists, indexed by literal -------------------------

  /** The pointer is to the middle of a buffer of 2n cells, so that a literal is
      its own index. */
  ghost function Value(vals: seq<int>, n: nat, lit: int): int
    requires |vals| == 2 * n && IsLit(lit, n)
  {
    vals[n + lit]
  }

  ghost function ListOf(watches: seq<seq<int>>, n: nat, lit: int): seq<int>
    requires |watches| == 2 * n && IsLit(lit, n)
  {
    watches[n + lit]
  }

  /** Values are a consistent partial assignment: exactly the literals on the
      propagated part of the trail are true. */
  ghost predicate ValuesOf(vals: seq<int>, done: seq<int>, n: nat) {
    && |vals| == 2 * n
    && (forall l :: IsLit(l, n) ==> -1 <= Value(vals, n, l) <= 1)
    && (forall l :: IsLit(l, n) ==> Value(vals, n, l) == -Value(vals, n, -l))
    && (forall l :: IsLit(l, n) ==> (Value(vals, n, l) > 0 <==> l in done))
  }

  ghost predicate SameLiterals(c: Clause, d: Clause) {
    forall x :: x in c <==> x in d
  }

  ghost predicate StackNormalised(d: seq<int>, starts: seq<int>, n: nat)
    requires Layout(d, starts)
  {
    forall i :: 0 <= i < |starts| - 1 ==> Normalised(ClauseAt(d, starts, i), n)
  }

  /** The stack stores the clauses of f, up to the order of their literals. */
  ghost predicate Stores(f: Formula, d: seq<int>, starts: seq<int>, n: nat) {
    && Layout(d, starts) && |starts| == |f| + 1
    && StackNormalised(d, starts, n)
    && (forall i :: 0 <= i < |f| ==> SameLiterals(f[i], ClauseAt(d, starts, i)))
  }

  ghost predicate AllEntailed(f: Formula, trail: seq<int>, n: nat) {
    && (forall l :: l in trail ==> IsLit(l, n))
    && (forall l :: l in trail ==> Entails(f, l))
  }

  /** occ is the offset of a clause of at least two literals that has lit in
      one of its two watched positions. */
  ghost predicate IsWatch(d: seq<int>, starts: seq<int>, occ: int, lit: int)
    requires Layout(d, starts)
  {
    exists i :: 0 <= i < |starts| - 1 && starts[i] == occ && starts[i] + 3 <= starts[i + 1]
                && (d[occ] == lit || d[occ + 1] == lit)
  }

  /** Two complementary literals are on the trail: the loop will find the conflict. */
  ghost predicate Doomed(vals: seq<int>, trail: seq<int>, n: nat)
    requires |vals| == 2 * n
  {
    exists l :: l in trail && IsLit(l, n) && Value(vals, n, l) < 0
  }

  /** The watch at position p is live, or it is false and the literal at the
      other watched position q is on the trail. */
  ghost predicate Guarded(d: seq<int>, occ: int, p: int, q: int,
                          watches: seq<seq<int>>, vals: seq<int>, trail: seq<int>, n: nat)
    requires |watches| == |vals| == 2 * n && 0 <= p < |d| && 0 <= q < |d| && IsLit(d[p], n)
  {
    occ in ListOf(watches, n, d[p]) || (Value(vals, n, d[p]) < 0 && (d[q] in trail || Doomed(vals, trail, n)))
  }

  /** Every list holds, without repetition, offsets of clauses watching its literal. */
  ghost predicate ListsSound(d: seq<int>, starts: seq<int>, limit: int, watches: seq<seq<int>>, n: nat)
    requires Layout(d, starts) && |watches| == 2 * n
  {
    forall l :: IsLit(l, n) ==> ListSound(d, starts, limit, ListOf(watches, n, l), l)
  }

  ghost predicate ListSound(d: seq<int>, starts: seq<int>, limit: int, list: seq<int>, lit: int)
    requires Layout(d, starts)
  {
    && (forall k :: 0 <= k < |list| ==> IsWatch(d, starts, list[k], lit) && list[k] < limit)
    && (forall j, k :: 0 <= j < k < |list| ==> list[j] != list[k])
  }

  /** The watch invariant for the first m clauses. */
  ghost predicate Watched(d: seq<int>, starts: seq<int>, m: int,
                          watches: seq<seq<int>>, vals: seq<int>, trail: seq<int>, n: nat)
  {
    && Layout(d, starts) && StackNormalised(d, starts, n)
    && 0 <= m < |starts| && |watches| == |vals| == 2 * n
    && ListsSound(d, starts, starts[m], watches, n)
    && (forall i :: 0 <= i < m && starts[i] + 3 <= starts[i + 1] ==> BothGuarded(d, starts, i, watches, vals, trail, n))
  }

  ghost predicate BothGuarded(d: seq<int>, starts: seq<int>, i: nat,
                              watches: seq<seq<int>>, vals: seq<int>, trail: seq<int>, n: nat)
    requires Layout(d, starts) && StackNormalised(d, starts, n)
    requires |watches| == |vals| == 2 * n && i < |starts| - 1 && starts[i] + 3 <= starts[i + 1]
  {
    LiteralAt(d, starts, n, i, starts[i]);
    LiteralAt(d, starts, n, i, starts[i] + 1);
    && Guarded(d, starts[i], starts[i], starts[i] + 1, watches, vals, trail, n)
    && Guarded(d, starts[i], starts[i] + 1, starts[i], watches, vals, trail, n)
  }

  /** Everything the propagation loop keeps, `next` being the first literal of
      the trail not yet propagated. */
  ghost predicate Inv(f: Formula, d: seq<int>, starts: seq<int>, watches: seq<seq<int>>,
                      vals: seq<int>, trail: seq<int>, next: nat, n: nat)
  {
    && next <= |trail|
    && Stores(f, d, starts, n)
    && AllEntailed(f, trail, n)
    && ValuesOf(vals, trail[..next], n)
    && Watched(d, starts, |starts| - 1, watches, vals, trail, n)
  }

  // ----- lemmas about single clauses ----------------------------------------

  /** Positions inside clause i hold its literals. */
  lemma LiteralAt(d: seq<int>, starts: seq<int>, n: nat, i: nat, p: int)
    requires Layout(d, starts) && StackNormalised(d, starts, n)
    requires i < |starts| - 1 && starts[i] <= p < starts[i + 1] - 1
    ensures 0 <= p < |d| && IsLit(d[p], n)
  {
    var c := ClauseAt(d, starts, i);
    assert d[p] == c[p - starts[i]];
  }

  /** The literals of a clause have pairwise different variables. */
  lemma DistinctAt(d: seq<int>, starts: seq<int>, n: nat, i: nat, p: int, q: int)
    requires Layout(d, starts) && StackNormalised(d, starts, n) && i < |starts| - 1 && p != q
    requires starts[i] <= p < starts[i + 1] - 1 && starts[i] <= q < starts[i + 1] - 1
    ensures 0 <= p < |d| && 0 <= q < |d| && d[q] != d[p] && d[q] != -d[p]
  {
    var c := ClauseAt(d, starts, i);
    assert Normalised(c, n) && d[p] == c[p - starts[i]] && d[q] == c[q - starts[i]];
  }

  function Swap(d: seq<int>, p: nat, q: nat): (r: seq<int>)
    requires p < |d| && q < |d|
    ensures |r| == |d|
  {
    d[p := d[q]][q := d[p]]
  }

  /** Swapping two literals of one clause changes no clause. */
  lemma SwapStores(f: Formula, d: seq<int>, starts: seq<int>, n: nat, i: nat, p: nat, q: nat)
    requires Stores(f, d, starts, n) && i < |f|
    requires starts[i] <= p < starts[i + 1] - 1 && starts[i] <= q < starts[i + 1] - 1
    requires q < |d| && p < |d|
    ensures Stores(f, Swap(d, p, q), starts, n)
  {
    hide Normalised, Swap, Layout;
    var e := Swap(d, p, q);
    SwapLayout(d, starts, i, p, q);
    var c := ClauseAt(d, starts, i);
    assert Normalised(c, n);
    SwapClause(c, n, p - starts[i], q - starts[i]);
    forall j | 0 <= j < |f|
      ensures Normalised(ClauseAt(e, starts, j), n) && SameLiterals(f[j], ClauseAt(e, starts, j))
    {
      assert Normalised(ClauseAt(d, starts, j), n) && SameLiterals(f[j], ClauseAt(d, starts, j));
    }
  }

  lemma SwapLayout(d: seq<int>, starts: seq<int>, i: nat, p: nat, q: nat)
    requires Layout(d, starts) && i < |starts| - 1
    requires starts[i] <= p < starts[i + 1] - 1 && starts[i] <= q < starts[i + 1] - 1
    requires q < |d| && p < |d|
    ensures Layout(Swap(d, p, q), starts)
    ensures ClauseAt(Swap(d, p, q), starts, i) == Swap(ClauseAt(d, starts, i), p - starts[i], q - starts[i])
    ensures forall j :: 0 <= j < |starts| - 1 && j != i ==> ClauseAt(Swap(d, p, q), starts, j) == ClauseAt(d, starts, j)
  {
    var e := Swap(d, p, q);
    assert Cell(d, starts, i);
    forall j | 0 <= j < |starts| - 1 ensures Cell(e, starts, j) {
      assert Cell(d, starts, j);
      Disjoint(starts, i, j);
    }
    forall j | 0 <= j < |starts| - 1 && j != i ensures ClauseAt(e, starts, j) == ClauseAt(d, starts, j) {
      Disjoint(starts, i, j);
    }
  }

  lemma SwapClause(c: Clause, n: nat, x: nat, y: nat)
    requires Normalised(c, n) && x < |c| && y < |c|
    ensures Normalised(Swap(c, x, y), n) && SameLiterals(c, Swap(c, x, y))
  {
    var c' := Swap(c, x, y);
    forall l | l in c ensures l in c' {
      var k :| 0 <= k < |c| && c[k] == l;
      assert c'[if k == x then y else if k == y then x else k] == l;
    }
    forall j, k | 0 <= j < k < |c'| ensures c'[j] != c'[k] && c'[j] != -c'[k] {
      var j', k' := if j == x then y else if j == y then x else j, if k == x then y else if k == y then x else k;
      assert c'[j] == c[j'] && c'[k] == c[k'];
    }
  }

  /** A clause all of whose literals but w are false entails w. */
  lemma UnitEntailed(f: Formula, d: seq<int>, starts: seq<int>, n: nat, i: nat, w: int, vals: seq<int>, done: seq<int>)
    requires Stores(f, d, starts, n) && i < |f| && ValuesOf(vals, done, n)
    requires forall l :: l in done ==> Entails(f, l)
    requires forall p :: starts[i] <= p < starts[i + 1] - 1 && d[p] != w ==> IsLit(d[p], n) && Value(vals, n, d[p]) < 0
    ensures Entails(f, w)
  {
    var c := ClauseAt(d, starts, i);
    hide Stores, Layout, StackNormalised;
    assert SameLiterals(f[i], c);
    forall l | l in c && l != w ensures -l in done {
      var p :| starts[i] <= p < starts[i + 1] - 1 && d[p] == l;
      assert Value(vals, n, l) < 0 < Value(vals, n, -l);
    }
    forall a | Models(a, f) ensures Holds(a, w) {
      assert Satisfies(a, f[i]);
      var l :| l in f[i] && Holds(a, l);
      assert l in c;
      assert forall x :: x in done ==> Holds(a, x);
      assert l == w;
    }
  }

  /** Two contradictory consequences leave no model. */
  lemma Contradiction(f: Formula, lit: int)
    requires lit != 0 && Entails(f, lit) && Entails(f, -lit)
    ensures Unsatisfiable(f)
  {
    forall a ensures !Models(a, f) {
      assert Models(a, f) ==> Holds(a, lit);
      assert Models(a, f) ==> Holds(a, -lit);
    }
  }

  // ----- lemmas about the watch invariant -----------------------------------

  ghost function DropHead(watches: seq<seq<int>>, n: nat, lit: int): (r: seq<seq<int>>)
    requires |watches| == 2 * n && IsLit(lit, n) && ListOf(watches, n, lit) != []
    ensures |r| == 2 * n
  {
    watches[n + lit := ListOf(watches, n, lit)[1..]]
  }

  ghost function PushOcc(watches: seq<seq<int>>, n: nat, lit: int, occ: int): (r: seq<seq<int>>)
    requires |watches| == 2 * n && IsLit(lit, n)
    ensures |r| == 2 * n
  {
    watches[n + lit := ListOf(watches, n, lit) + [occ]]
  }

  /** A watch survives a change of clause i that keeps the literal watched. */
  lemma IsWatchElsewhere(d: seq<int>, e: seq<int>, starts: seq<int>, i: nat, occ: int, lit: int)
    requires Layout(d, starts) && Layout(e, starts) && |d| == |e| && i < |starts| - 1
    requires IsWatch(d, starts, occ, lit)
    requires forall k :: 0 <= k < |d| && !(starts[i] <= k < starts[i + 1] - 1) ==> e[k] == d[k]
    requires occ == starts[i] ==> starts[i] + 3 <= starts[i + 1] <= |d| && (e[occ] == lit || e[occ + 1] == lit)
    ensures IsWatch(e, starts, occ, lit)
  {
    var j :| 0 <= j < |starts| - 1 && starts[j] == occ && starts[j] + 3 <= starts[j + 1]
             && (d[occ] == lit || d[occ + 1] == lit);
    Disjoint(starts, i, j);
  }

  /** Guards of clause j carry over when its watched literals stay (in either
      order), it stays in their lists, and the trail only grows. */
  lemma GuardKept(d: seq<int>, e: seq<int>, starts: seq<int>, j: nat, W: seq<seq<int>>, W': seq<seq<int>>,
                  vals: seq<int>, trail: seq<int>, trail': seq<int>, n: nat)
    requires Layout(d, starts) && StackNormalised(d, starts, n) && Layout(e, starts) && StackNormalised(e, starts, n)
    requires |W| == |W'| == |vals| == 2 * n && j < |starts| - 1 && starts[j] + 3 <= starts[j + 1] <= |d| == |e|
    requires BothGuarded(d, starts, j, W, vals, trail, n)
    requires (e[starts[j]] == d[starts[j]] && e[starts[j] + 1] == d[starts[j] + 1])
          || (e[starts[j]] == d[starts[j] + 1] && e[starts[j] + 1] == d[starts[j]])
    requires forall l :: IsLit(l, n) && starts[j] in ListOf(W, n, l) ==> starts[j] in ListOf(W', n, l)
    requires forall l :: l in trail ==> l in trail'
    ensures BothGuarded(e, starts, j, W', vals, trail', n)
  {
    LiteralAt(d, starts, n, j, starts[j]);
    LiteralAt(d, starts, n, j, starts[j] + 1);
    assert Doomed(vals, trail, n) ==> Doomed(vals, trail', n);
  }

  /** Exchanging the two watched literals of a clause changes no watch. */
  lemma SwapWatched(f: Formula, d: seq<int>, starts: seq<int>, watches: seq<seq<int>>,
                    vals: seq<int>, trail: seq<int>, n: nat, i: nat)
    requires Stores(f, d, starts, n) && i < |f| && starts[i] + 3 <= starts[i + 1] <= |d|
    requires Watched(d, starts, |f|, watches, vals, trail, n)
    ensures Stores(f, Swap(d, starts[i], starts[i] + 1), starts, n)
    ensures Watched(Swap(d, starts[i], starts[i] + 1), starts, |f|, watches, vals, trail, n)
  {
    var p := starts[i];
    var e := Swap(d, p, p + 1);
    SwapStores(f, d, starts, n, i, p, p + 1);
    forall l | IsLit(l, n) ensures ListSound(e, starts, starts[|f|], ListOf(watches, n, l), l) {
      var list := ListOf(watches, n, l);
      assert ListSound(d, starts, starts[|f|], list, l);
      forall k | 0 <= k < |list| ensures IsWatch(e, starts, list[k], l) {
        if list[k] == p { WatchOf(d, starts, i, l); }
        IsWatchElsewhere(d, e, starts, i, list[k], l);
      }
    }
    forall j | 0 <= j < |f| && starts[j] + 3 <= starts[j + 1]
      ensures BothGuarded(e, starts, j, watches, vals, trail, n)
    {
      Disjoint(starts, i, j);
      GuardKept(d, e, starts, j, watches, watches, vals, trail, trail, n);
    }
  }

  lemma WatchOf(d: seq<int>, starts: seq<int>, i: nat, lit: int)
    requires Layout(d, starts) && i < |starts| - 1 && IsWatch(d, starts, starts[i], lit)
    ensures starts[i] + 3 <= starts[i + 1] <= |d| && (d[starts[i]] == lit || d[starts[i] + 1] == lit)
  {
    var j :| 0 <= j < |starts| - 1 && starts[j] == starts[i] && starts[j] + 3 <= starts[j + 1]
             && (d[starts[i]] == lit || d[starts[i] + 1] == lit);
    Disjoint(starts, i, j);
  }

  /** The visited clause leaves the list of the false literal once its other
      watched literal is on the trail. */
  lemma DropWatch(d: seq<int>, starts: seq<int>, watches: seq<seq<int>>, vals: seq<int>,
                  trail: seq<int>, trail': seq<int>, n: nat, i: nat)
    requires Watched(d, starts, |starts| - 1, watches, vals, trail, n)
    requires i < |starts| - 1 && starts[i] + 3 <= starts[i + 1] <= |d| && IsLit(d[starts[i] + 1], n)
    requires ListOf(watches, n, d[starts[i] + 1]) != [] && ListOf(watches, n, d[starts[i] + 1])[0] == starts[i]
    requires Value(vals, n, d[starts[i] + 1]) < 0
    requires d[starts[i]] in trail' && forall l :: l in trail ==> l in trail'
    ensures Watched(d, starts, |starts| - 1, DropHead(watches, n, d[starts[i] + 1]), vals, trail', n)
  {
    var fls := d[starts[i] + 1];
    var W := DropHead(watches, n, fls);
    hide Normalised, StackNormalised, Cell, DropHead, ListSound, BothGuarded;
    DroppedLists(d, starts, watches, n, fls);
    forall j | 0 <= j < |starts| - 1 && starts[j] + 3 <= starts[j + 1]
      ensures BothGuarded(d, starts, j, W, vals, trail', n)
    {
      hide ListsSound;
      CellBounds(d, starts, j);
      Disjoint(starts, i, j);
      assert BothGuarded(d, starts, j, watches, vals, trail, n);
      if j != i { GuardKept(d, d, starts, j, watches, W, vals, trail, trail', n); }
      else { DroppedGuard(d, starts, i, watches, W, vals, trail, trail', n); }
    }
  }

  lemma DroppedLists(d: seq<int>, starts: seq<int>, watches: seq<seq<int>>, n: nat, fls: int)
    requires Layout(d, starts) && |watches| == 2 * n && ListsSound(d, starts, |d|, watches, n)
    requires IsLit(fls, n) && ListOf(watches, n, fls) != []
    ensures var W := DropHead(watches, n, fls);
            && ListsSound(d, starts, |d|, W, n)
            && (forall l, x :: IsLit(l, n) && x in ListOf(watches, n, l) && (l != fls || x != ListOf(watches, n, fls)[0])
                  ==> x in ListOf(W, n, l))
  {
    hide Cell, IsWatch;
    var W := DropHead(watches, n, fls);
    var list := ListOf(watches, n, fls);
    assert forall x :: x in list && x != list[0] ==> x in list[1..];
    forall l | IsLit(l, n) ensures ListSound(d, starts, |d|, ListOf(W, n, l), l) {
      assert ListSound(d, starts, |d|, ListOf(watches, n, l), l);
    }
  }

  lemma DroppedGuard(d: seq<int>, starts: seq<int>, i: nat, watches: seq<seq<int>>, W: seq<seq<int>>,
                     vals: seq<int>, trail: seq<int>, trail': seq<int>, n: nat)
    requires Layout(d, starts) && StackNormalised(d, starts, n) && |watches| == |W| == |vals| == 2 * n
    requires i < |starts| - 1 && starts[i] + 3 <= starts[i + 1] <= |d| && 0 <= starts[i]
    requires IsLit(d[starts[i] + 1], n) && Value(vals, n, d[starts[i] + 1]) < 0
    requires BothGuarded(d, starts, i, watches, vals, trail, n)
    requires d[starts[i]] in trail' && forall l :: l in trail ==> l in trail'
    requires forall l :: IsLit(l, n) && starts[i] in ListOf(watches, n, l) && l != d[starts[i] + 1] ==> starts[i] in ListOf(W, n, l)
    ensures BothGuarded(d, starts, i, W, vals, trail', n)
  {
    LiteralAt(d, starts, n, i, starts[i]);
    DistinctAt(d, starts, n, i, starts[i], starts[i] + 1);
    assert Doomed(vals, trail, n) ==> Doomed(vals, trail', n);
  }

  /** A literal that is not false replaces the false watched literal. */
  lemma MoveWatch(f: Formula, d: seq<int>, starts: seq<int>, watches: seq<seq<int>>, vals: seq<int>,
                  trail: seq<int>, n: nat, i: nat, q: nat)
    requires Stores(f, d, starts, n) && i < |f| && Watched(d, starts, |f|, watches, vals, trail, n)
    requires starts[i] + 2 <= q < starts[i + 1] - 1 && starts[i + 1] <= |d|
    requires IsLit(d[starts[i] + 1], n) && IsLit(d[q], n) && Value(vals, n, d[starts[i] + 1]) < 0
    requires ListOf(watches, n, d[starts[i] + 1]) != [] && ListOf(watches, n, d[starts[i] + 1])[0] == starts[i]
    ensures Stores(f, Swap(d, starts[i] + 1, q), starts, n)
    ensures Watched(Swap(d, starts[i] + 1, q), starts, |f|,
                    PushOcc(DropHead(watches, n, d[starts[i] + 1]), n, d[q], starts[i]), vals, trail, n)
  {
    hide Normalised, SameLiterals, ListSound, Cell, StackNormalised;
    var p := starts[i] + 1;
    var fls, other := d[p], d[q];
    var e := Swap(d, p, q);
    SwapStores(f, d, starts, n, i, p, q);
    LiteralAt(d, starts, n, i, starts[i]);
    LiteralAt(d, starts, n, i, p);
    LiteralAt(d, starts, n, i, q);
    DistinctAt(d, starts, n, i, starts[i], p);
    var W := PushOcc(DropHead(watches, n, fls), n, other, starts[i]);
    MovedLists(d, e, starts, watches, n, i, q);
    MovedMembers(watches, n, fls, other, starts[i]);
    assert BothGuarded(d, starts, i, watches, vals, trail, n);
    MovedGuard(d, e, starts, watches, W, vals, trail, n, i);
    forall j | 0 <= j < |f| && starts[j] + 3 <= starts[j + 1] && j != i
      ensures BothGuarded(e, starts, j, W, vals, trail, n)
    {
      hide ListsSound, DropHead, PushOcc;
      SwapElsewhere(d, starts, i, p, q, j);
      GuardKept(d, e, starts, j, watches, W, vals, trail, trail, n);
    }
  }

  lemma SwapElsewhere(d: seq<int>, starts: seq<int>, i: nat, p: nat, q: nat, j: nat)
    requires Layout(d, starts) && i < |starts| - 1 && j < |starts| - 1 && i != j
    requires starts[i] <= p < starts[i + 1] - 1 && starts[i] <= q < starts[i + 1] - 1
    requires q < |d| && p < |d| && starts[j] + 3 <= starts[j + 1]
    ensures starts[j + 1] <= |d| && 0 <= starts[j] && starts[j] != starts[i]
    ensures Swap(d, p, q)[starts[j]] == d[starts[j]] && Swap(d, p, q)[starts[j] + 1] == d[starts[j] + 1]
  {
    assert Cell(d, starts, j);
    Disjoint(starts, i, j);
  }

  lemma MovedMembers(watches: seq<seq<int>>, n: nat, fls: int, other: int, occ: int)
    requires |watches| == 2 * n && IsLit(fls, n) && IsLit(other, n)
    requires ListOf(watches, n, fls) != [] && ListOf(watches, n, fls)[0] == occ
    ensures var W := PushOcc(DropHead(watches, n, fls), n, other, occ);
            && occ in ListOf(W, n, other)
            && (forall l, x :: IsLit(l, n) && x in ListOf(watches, n, l) && (x != occ || l != fls) ==> x in ListOf(W, n, l))
  {
    var D := DropHead(watches, n, fls);
    var W := PushOcc(D, n, other, occ);
    var list := ListOf(watches, n, fls);
    assert forall x :: x in list && x != list[0] ==> x in list[1..];
    assert ListOf(W, n, other)[|ListOf(D, n, other)|] == occ;
    forall l, x | IsLit(l, n) && x in ListOf(watches, n, l) && (x != occ || l != fls) ensures x in ListOf(W, n, l) {
      assert x in ListOf(D, n, l);
      if l == other { assert ListOf(W, n, l) == ListOf(D, n, l) + [occ]; }
    }
  }

  lemma MovedGuard(d: seq<int>, e: seq<int>, starts: seq<int>, watches: seq<seq<int>>, W: seq<seq<int>>,
                   vals: seq<int>, trail: seq<int>, n: nat, i: nat)
    requires Layout(d, starts) && StackNormalised(d, starts, n) && Layout(e, starts) && StackNormalised(e, starts, n)
    requires |watches| == |W| == |vals| == 2 * n && i < |starts| - 1 && starts[i] + 3 <= starts[i + 1] <= |d| == |e|
    requires e[starts[i]] == d[starts[i]] && IsLit(e[starts[i]], n) && IsLit(e[starts[i] + 1], n)
    requires d[starts[i]] != d[starts[i] + 1]
    requires starts[i] in ListOf(W, n, e[starts[i] + 1])
    requires IsLit(d[starts[i]], n) && IsLit(d[starts[i] + 1], n)
    requires BothGuarded(d, starts, i, watches, vals, trail, n)
    requires starts[i] in ListOf(watches, n, d[starts[i]]) ==> starts[i] in ListOf(W, n, d[starts[i]])
    requires Value(vals, n, d[starts[i] + 1]) < 0
    ensures BothGuarded(e, starts, i, W, vals, trail, n)
  {
  }

  lemma MovedLists(d: seq<int>, e: seq<int>, starts: seq<int>, watches: seq<seq<int>>, n: nat, i: nat, q: nat)
    requires Layout(d, starts) && StackNormalised(d, starts, n) && Layout(e, starts) && |watches| == 2 * n
    requires i < |starts| - 1 && starts[i] + 2 <= q < starts[i + 1] - 1 && starts[i + 1] <= |d|
    requires e == Swap(d, starts[i] + 1, q) && IsLit(d[starts[i] + 1], n) && IsLit(d[q], n)
    requires ListsSound(d, starts, |d|, watches, n)
    requires ListOf(watches, n, d[starts[i] + 1]) != [] && ListOf(watches, n, d[starts[i] + 1])[0] == starts[i]
    ensures ListsSound(e, starts, |d|, PushOcc(DropHead(watches, n, d[starts[i] + 1]), n, d[q], starts[i]), n)
  {
    var fls, other := d[starts[i] + 1], d[q];
    DistinctAt(d, starts, n, i, q, starts[i]);
    DistinctAt(d, starts, n, i, q, starts[i] + 1);
    var W := PushOcc(DropHead(watches, n, fls), n, other, starts[i]);
    forall l | IsLit(l, n) ensures ListSound(e, starts, |d|, ListOf(W, n, l), l) {
      var was := ListOf(watches, n, l);
      assert ListSound(d, starts, |d|, was, l);
      forall k | 0 <= k < |was| && (l == fls ==> k > 0) ensures IsWatch(e, starts, was[k], l) {
        if was[k] == starts[i] { WatchOf(d, starts, i, l); }
        IsWatchElsewhere(d, e, starts, i, was[k], l);
      }
      if l == other {
        assert IsWatch(e, starts, starts[i], other);
        forall k | 0 <= k < |was| ensures was[k] != starts[i] {
          if was[k] == starts[i] { WatchOf(d, starts, i, l); }
        }
      }
    }
  }

  // ----- the loops ----------------------------------------------------------

  /** A clause of at least two literals enters the lists of its first two. */
  lemma AddWatches(d: seq<int>, starts: seq<int>, i: nat, watches: seq<seq<int>>,
                   vals: seq<int>, trail: seq<int>, n: nat)
    requires Watched(d, starts, i, watches, vals, trail, n) && i < |starts| - 1
    requires starts[i] + 3 <= starts[i + 1] <= |d| && IsLit(d[starts[i]], n) && IsLit(d[starts[i] + 1], n)
    ensures Watched(d, starts, i + 1,
                    PushOcc(PushOcc(watches, n, d[starts[i]], starts[i]), n, d[starts[i] + 1], starts[i]), vals, trail, n)
  {
    var w0, w1, occ := d[starts[i]], d[starts[i] + 1], starts[i];
    var W := PushOcc(PushOcc(watches, n, w0, occ), n, w1, occ);
    DistinctAt(d, starts, n, i, occ, occ + 1);
    hide Normalised, StackNormalised, Cell, PushOcc, ListSound, BothGuarded, IsWatch;
    AddedLists(d, starts, i, watches, n);
    forall j | 0 <= j < |starts| - 1 && starts[j] + 3 <= starts[j + 1] && j <= i
      ensures BothGuarded(d, starts, j, W, vals, trail, n)
    {
      hide ListsSound;
      CellBounds(d, starts, j);
      if j < i {
        assert BothGuarded(d, starts, j, watches, vals, trail, n);
        GuardKept(d, d, starts, j, watches, W, vals, trail, trail, n);
      } else {
        FreshGuard(d, starts, i, W, vals, trail, n);
      }
    }
  }

  /** The lists after the two pushes. */
  lemma AddedLists(d: seq<int>, starts: seq<int>, i: nat, watches: seq<seq<int>>, n: nat)
    requires Layout(d, starts) && i < |starts| - 1 && |watches| == 2 * n && ListsSound(d, starts, starts[i], watches, n)
    requires starts[i] + 3 <= starts[i + 1] <= |d| && IsLit(d[starts[i]], n) && IsLit(d[starts[i] + 1], n)
    requires d[starts[i]] != d[starts[i] + 1] && 0 <= starts[i]
    ensures var W := PushOcc(PushOcc(watches, n, d[starts[i]], starts[i]), n, d[starts[i] + 1], starts[i]);
            && ListsSound(d, starts, starts[i + 1], W, n)
            && (forall l, x :: IsLit(l, n) && x in ListOf(watches, n, l) ==> x in ListOf(W, n, l))
            && starts[i] in ListOf(W, n, d[starts[i]]) && starts[i] in ListOf(W, n, d[starts[i] + 1])
  {
    hide Cell;
    var w0, w1, occ := d[starts[i]], d[starts[i] + 1], starts[i];
    var W := PushOcc(PushOcc(watches, n, w0, occ), n, w1, occ);
    forall l | IsLit(l, n)
      ensures ListOf(W, n, l) == if l == w0 || l == w1 then ListOf(watches, n, l) + [occ] else ListOf(watches, n, l)
    {}
    assert IsWatch(d, starts, occ, w0) && IsWatch(d, starts, occ, w1);
    hide PushOcc, IsWatch, ListSound;
    forall l | IsLit(l, n) ensures ListSound(d, starts, starts[i + 1], ListOf(W, n, l), l) {
      assert ListSound(d, starts, starts[i], ListOf(watches, n, l), l);
      ListSoundAppend(d, starts, i, ListOf(watches, n, l), l);
    }
    assert ListOf(W, n, w0)[|ListOf(watches, n, w0)|] == occ && ListOf(W, n, w1)[|ListOf(watches, n, w1)|] == occ;
  }

  lemma FreshGuard(d: seq<int>, starts: seq<int>, i: nat, watches: seq<seq<int>>, vals: seq<int>, trail: seq<int>, n: nat)
    requires Layout(d, starts) && StackNormalised(d, starts, n) && |watches| == |vals| == 2 * n
    requires i < |starts| - 1 && starts[i] + 3 <= starts[i + 1] <= |d| && 0 <= starts[i]
    requires IsLit(d[starts[i]], n) && IsLit(d[starts[i] + 1], n)
    requires starts[i] in ListOf(watches, n, d[starts[i]]) && starts[i] in ListOf(watches, n, d[starts[i] + 1])
    ensures BothGuarded(d, starts, i, watches, vals, trail, n)
  {}

  lemma ListSoundAppend(d: seq<int>, starts: seq<int>, i: nat, list: seq<int>, lit: int)
    requires Layout(d, starts) && i < |starts| - 1 && ListSound(d, starts, starts[i], list, lit)
    ensures ListSound(d, starts, starts[i + 1], list, lit)
    ensures IsWatch(d, starts, starts[i], lit) ==> ListSound(d, starts, starts[i + 1], list + [starts[i]], lit)
  {
    hide IsWatch, Cell;
  }

  lemma SkipShort(d: seq<int>, starts: seq<int>, i: nat, watches: seq<seq<int>>,
                  vals: seq<int>, trail: seq<int>, n: nat)
    requires Watched(d, starts, i, watches, vals, trail, n) && i < |starts| - 1 && starts[i + 1] < starts[i] + 3
    ensures Watched(d, starts, i + 1, watches, vals, trail, n)
  {
    hide Normalised, StackNormalised, Cell, BothGuarded;
    forall l | IsLit(l, n) ensures ListSound(d, starts, starts[i + 1], ListOf(watches, n, l), l) {
      ListSoundAppend(d, starts, i, ListOf(watches, n, l), l);
    }
  }

  lemma NoneWatched(d: seq<int>, starts: seq<int>, watches: seq<seq<int>>, vals: seq<int>, trail: seq<int>, n: nat)
    requires Layout(d, starts) && StackNormalised(d, starts, n) && |watches| == |vals| == 2 * n
    requires forall k :: 0 <= k < |watches| ==> watches[k] == []
    ensures Watched(d, starts, 0, watches, vals, trail, n)
  {
    forall l | IsLit(l, n) ensures ListOf(watches, n, l) == [] {}
  }

  /** Runs from a position inside clause i to its closing zero. */
  method EndOfClause(cdb: seq<int>, from: int, ghost starts: seq<int>, ghost i: nat) returns (c: int)
    requires Layout(cdb, starts) && i < |starts| - 1 && starts[i] <= from < starts[i + 1]
    ensures c == starts[i + 1] - 1 && from <= c < |cdb|
  {
    hide Layout;
    c := from;
    AtEnd(cdb, starts, i, c);
    while cdb[c] != 0
      invariant from <= c < starts[i + 1] && c < |cdb|
      invariant cdb[c] == 0 <==> c == starts[i + 1] - 1
      decreases |cdb| - c
    {
      c := c + 1;
      AtEnd(cdb, starts, i, c);
    }
  }

  method PushWatch(watches: array<seq<int>>, n: nat, lit: int, occ: int)
    requires watches.Length == 2 * n && IsLit(lit, n)
    modifies watches
    ensures watches[..] == PushOcc(old(watches[..]), n, lit, occ)
  {
    watches[n + lit] := watches[n + lit] + [occ];
  }

  method ConnectWatches(cdb: seq<int>, n: nat, ghost starts: seq<int>, ghost vals: seq<int>, ghost trail: seq<int>)
    returns (watches: array<seq<int>>)
    requires Layout(cdb, starts) && StackNormalised(cdb, starts, n) && |vals| == 2 * n
    ensures fresh(watches) && watches.Length == 2 * n
    ensures Watched(cdb, starts, |starts| - 1, watches[..], vals, trail, n)
  {
    watches := new seq<int>[2 * n](_ => []);
    var c := 0;
    ghost var i := 0;
    NoneWatched(cdb, starts, watches[..], vals, trail, n);
    StartsEnd(cdb, starts, 0);
    hide Watched, Layout, StackNormalised, PushOcc, ClauseAt, Cell, ListOf;
    while c < |cdb|
      invariant 0 <= i < |starts| && c == starts[i]
      invariant i < |starts| - 1 <==> c < |cdb|
      invariant Watched(cdb, starts, i, watches[..], vals, trail, n)
    {
      CellBounds(cdb, starts, i);
      StartsEnd(cdb, starts, i + 1);
      var occ := c;
      AtEnd(cdb, starts, i, c);
      if cdb[c] == 0 {
        SkipShort(cdb, starts, i, watches[..], vals, trail, n);
        c, i := c + 1, i + 1;
        continue;
      }
      LiteralAt(cdb, starts, n, i, c);
      var w0 := cdb[c];
      c := c + 1;
      AtEnd(cdb, starts, i, c);
      if cdb[c] == 0 {
        SkipShort(cdb, starts, i, watches[..], vals, trail, n);
        c, i := c + 1, i + 1;
        continue;
      }
      LiteralAt(cdb, starts, n, i, c);
      var w1 := cdb[c];
      ghost var was := watches[..];
      PushWatch(watches, n, w0, occ);
      PushWatch(watches, n, w1, occ);
      AddWatches(cdb, starts, i, was, vals, trail, n);
      c := c + 1;
      c := EndOfClause(cdb, c, starts, i);
      c, i := c + 1, i + 1;
    }
  }

  ghost function Assign(vals: seq<int>, n: nat, lit: int): (r: seq<int>)
    requires |vals| == 2 * n && IsLit(lit, n)
    ensures |r| == 2 * n
  {
    vals[n + lit := 1][n - lit := -1]
  }

  /** Making an unassigned literal of the trail true keeps the invariant. */
  lemma AssignInv(f: Formula, d: seq<int>, starts: seq<int>, watches: seq<seq<int>>,
                  vals: seq<int>, trail: seq<int>, next: nat, n: nat)
    requires Inv(f, d, starts, watches, vals, trail, next, n)
    requires next < |trail| && IsLit(trail[next], n) && Value(vals, n, trail[next]) == 0
    ensures Inv(f, d, starts, watches, Assign(vals, n, trail[next]), trail, next + 1, n)
  {
    hide Stores, StackNormalised, ListsSound, Layout;
    var lit := trail[next];
    var vals' := Assign(vals, n, lit);
    assert trail[..next + 1] == trail[..next] + [lit];
    assert Value(vals, n, -lit) == 0;
    forall l | IsLit(l, n)
      ensures Value(vals', n, l) == if l == lit then 1 else if l == -lit then -1 else Value(vals, n, l)
    {}
    assert Doomed(vals, trail, n) ==> Doomed(vals', trail, n);
    forall j | 0 <= j < |starts| - 1 && starts[j] + 3 <= starts[j + 1]
      ensures BothGuarded(d, starts, j, watches, vals', trail, n)
    {
      assert BothGuarded(d, starts, j, watches, vals, trail, n);
      LiteralAt(d, starts, n, j, starts[j]);
      LiteralAt(d, starts, n, j, starts[j] + 1);
    }
  }

  /** The clause whose watch is visited. */
  lemma VisitedClause(d: seq<int>, starts: seq<int>, watches: seq<seq<int>>, vals: seq<int>,
                      trail: seq<int>, n: nat, lit: int) returns (i: nat)
    requires Watched(d, starts, |starts| - 1, watches, vals, trail, n)
    requires IsLit(lit, n) && ListOf(watches, n, lit) != []
    ensures i < |starts| - 1 && starts[i] == ListOf(watches, n, lit)[0] && 0 <= starts[i] && starts[i] + 3 <= starts[i + 1] <= |d|
    ensures d[starts[i]] == lit || d[starts[i] + 1] == lit
    ensures d[starts[i]] != d[starts[i] + 1] && IsLit(d[starts[i]], n) && IsLit(d[starts[i] + 1], n)
  {
    hide StackNormalised, Cell;
    var occ := ListOf(watches, n, lit)[0];
    assert IsWatch(d, starts, occ, lit);
    i :| 0 <= i < |starts| - 1 && starts[i] == occ && starts[i] + 3 <= starts[i + 1] && (d[occ] == lit || d[occ + 1] == lit);
    CellBounds(d, starts, i);
    LiteralAt(d, starts, n, i, occ);
    LiteralAt(d, starts, n, i, occ + 1);
    DistinctAt(d, starts, n, i, occ, occ + 1);
  }

  /** Reads on from the third literal to the first literal that is not false,
      or to the closing zero. */
  method FindReplacement(cdb: seq<int>, occ: int, vals: array<int>, n: nat, ghost starts: seq<int>, ghost i: nat)
    returns (q: int)
    requires Layout(cdb, starts) && StackNormalised(cdb, starts, n) && vals.Length == 2 * n
    requires i < |starts| - 1 && starts[i] == occ && occ + 3 <= starts[i + 1]
    ensures occ + 2 <= q < starts[i + 1] <= |cdb|
    ensures q < starts[i + 1] - 1 ==> IsLit(cdb[q], n) && Value(vals[..], n, cdb[q]) >= 0
    ensures cdb[q] == 0 <==> q == starts[i + 1] - 1
    ensures q == starts[i + 1] - 1 ==>
              forall k :: occ + 2 <= k < q ==> IsLit(cdb[k], n) && Value(vals[..], n, cdb[k]) < 0
  {
    hide Layout, StackNormalised;
    q := occ + 2;
    CellBounds(cdb, starts, i);
    AtEnd(cdb, starts, i, q);
    if q < starts[i + 1] - 1 { LiteralAt(cdb, starts, n, i, q); }
    while cdb[q] != 0 && vals[n + cdb[q]] < 0
      invariant occ + 2 <= q < starts[i + 1]
      invariant cdb[q] == 0 <==> q == starts[i + 1] - 1
      invariant q < starts[i + 1] - 1 ==> IsLit(cdb[q], n)
      invariant forall k :: occ + 2 <= k < q ==> IsLit(cdb[k], n) && Value(vals[..], n, cdb[k]) < 0
      decreases |cdb| - q
    {
      q := q + 1;
      AtEnd(cdb, starts, i, q);
      if q < starts[i + 1] - 1 { LiteralAt(cdb, starts, n, i, q); }
    }
  }

  /** Visits one clause watching the literal that has just become false. The
      list still to be visited is the one `watches` holds for that literal. */
  method VisitClause(cdb: seq<int>, trail: seq<int>, occ: int, fls: int, n: nat, vals: array<int>,
                     watches: array<seq<int>>, ghost f: Formula, ghost starts: seq<int>, ghost next: nat,
                     ghost pending: seq<seq<int>>)
    returns (cdb': seq<int>, trail': seq<int>, mt: bool)
    requires vals.Length == watches.Length == |pending| == 2 * n && IsLit(fls, n)
    requires Inv(f, cdb, starts, pending, vals[..], trail, next, n)
    requires ListOf(pending, n, fls) != [] && ListOf(pending, n, fls)[0] == occ && Value(vals[..], n, fls) < 0
    requires forall l :: IsLit(l, n) && l != fls ==> ListOf(watches[..], n, l) == ListOf(pending, n, l)
    modifies watches
    ensures mt ==> Unsatisfiable(f)
    ensures !mt ==> exists p :: Visited(p, pending, watches[..], n, fls) && Inv(f, cdb', starts, p, vals[..], trail', next, n)
    ensures trail <= trail'
    ensures forall l :: IsLit(l, n) && Value(vals[..], n, l) < 0 ==> ListOf(watches[..], n, l) == old(ListOf(watches[..], n, l))
  {
    hide Inv, SameLiterals, Watched, StackNormalised, Layout, Stores, Unsatisfiable, Entails;
    cdb', trail', mt := cdb, trail, false;
    InvParts(f, cdb, starts, pending, vals[..], trail, next, n);
    ghost var i := VisitedClause(cdb, starts, pending, vals[..], trail, n, fls);
    if cdb'[occ + 1] != fls {
      InvSwap(f, cdb, starts, pending, vals[..], trail, next, n, i);
      cdb' := Swap(cdb', occ, occ + 1);
      InvParts(f, cdb', starts, pending, vals[..], trail, next, n);
    }
    var w0 := cdb'[occ];
    if vals[n + w0] > 0 {
      InvSatisfied(f, cdb', starts, pending, vals[..], trail, next, n, i);
      assert Visited(DropHead(pending, n, fls), pending, watches[..], n, fls);
      return;
    }
    var q := FindReplacement(cdb', occ, vals, n, starts, i);
    if cdb'[q] != 0 {
      var other := cdb'[q];
      InvMove(f, cdb', starts, pending, vals[..], trail, next, n, i, q);
      cdb' := Swap(cdb', occ + 1, q);
      PushWatch(watches, n, other, occ);
      assert Visited(PushOcc(DropHead(pending, n, fls), n, other, occ), pending, watches[..], n, fls);
    } else if vals[n + w0] == 0 {
      trail' := trail + [w0];
      InvUnit(f, cdb', starts, pending, vals[..], trail, next, n, i);
      assert Visited(DropHead(pending, n, fls), pending, watches[..], n, fls);
    } else {
      mt := true;
      InvConflict(f, cdb', starts, pending, vals[..], trail, next, n, i);
    }
  }

  lemma InvParts(f: Formula, d: seq<int>, starts: seq<int>, watches: seq<seq<int>>, vals: seq<int>,
                 trail: seq<int>, next: nat, n: nat)
    requires Inv(f, d, starts, watches, vals, trail, next, n)
    ensures Layout(d, starts) && StackNormalised(d, starts, n) && |starts| == |f| + 1 && Stores(f, d, starts, n)
    ensures Watched(d, starts, |starts| - 1, watches, vals, trail, n) && |vals| == 2 * n && next <= |trail|
  {}

  /** The clause whose first watched literal is w0 and whose second one is false. */
  ghost predicate Visiting(d: seq<int>, starts: seq<int>, watches: seq<seq<int>>, vals: seq<int>, n: nat, i: nat) {
    && i < |starts| - 1 && 0 <= starts[i] && starts[i] + 3 <= starts[i + 1] <= |d| && |watches| == |vals| == 2 * n
    && IsLit(d[starts[i]], n) && IsLit(d[starts[i] + 1], n) && Value(vals, n, d[starts[i] + 1]) < 0
    && ListOf(watches, n, d[starts[i] + 1]) != [] && ListOf(watches, n, d[starts[i] + 1])[0] == starts[i]
  }

  lemma InvSwap(f: Formula, d: seq<int>, starts: seq<int>, watches: seq<seq<int>>, vals: seq<int>,
                trail: seq<int>, next: nat, n: nat, i: nat)
    requires Inv(f, d, starts, watches, vals, trail, next, n) && i < |starts| - 1 && 0 <= starts[i] && starts[i] + 3 <= starts[i + 1] <= |d|
    ensures Inv(f, Swap(d, starts[i], starts[i] + 1), starts, watches, vals, trail, next, n)
  {
    hide Stores, Watched, ValuesOf, AllEntailed;
    StoresSize(f, d, starts, n);
    SwapWatched(f, d, starts, watches, vals, trail, n, i);
  }

  lemma StoresSize(f: Formula, d: seq<int>, starts: seq<int>, n: nat)
    requires Stores(f, d, starts, n)
    ensures |starts| == |f| + 1
  {}

  /** The other watched literal is true: this watch may go. */
  lemma InvSatisfied(f: Formula, d: seq<int>, starts: seq<int>, watches: seq<seq<int>>, vals: seq<int>,
                     trail: seq<int>, next: nat, n: nat, i: nat)
    requires Inv(f, d, starts, watches, vals, trail, next, n) && Visiting(d, starts, watches, vals, n, i)
    requires Value(vals, n, d[starts[i]]) > 0
    ensures Inv(f, d, starts, DropHead(watches, n, d[starts[i] + 1]), vals, trail, next, n)
  {
    hide Stores, Watched, AllEntailed;
    DropWatch(d, starts, watches, vals, trail, trail, n, i);
  }

  lemma InvMove(f: Formula, d: seq<int>, starts: seq<int>, watches: seq<seq<int>>, vals: seq<int>,
                trail: seq<int>, next: nat, n: nat, i: nat, q: nat)
    requires Inv(f, d, starts, watches, vals, trail, next, n) && Visiting(d, starts, watches, vals, n, i)
    requires starts[i] + 2 <= q < starts[i + 1] - 1 && IsLit(d[q], n) && Value(vals, n, d[q]) >= 0
    ensures Inv(f, Swap(d, starts[i] + 1, q), starts,
                PushOcc(DropHead(watches, n, d[starts[i] + 1]), n, d[q], starts[i]), vals, trail, next, n)
  {
    hide Stores, Watched, ValuesOf, AllEntailed;
    StoresSize(f, d, starts, n);
    MoveWatch(f, d, starts, watches, vals, trail, n, i, q);
  }

  /** All literals but the first are false. */
  ghost predicate OthersFalse(d: seq<int>, starts: seq<int>, vals: seq<int>, n: nat, i: nat)
    requires i < |starts| - 1 && 0 <= starts[i] < starts[i + 1] <= |d| && |vals| == 2 * n
  {
    forall k :: starts[i] < k < starts[i + 1] - 1 ==> IsLit(d[k], n) && Value(vals, n, d[k]) < 0
  }

  lemma FirstEntailed(f: Formula, d: seq<int>, starts: seq<int>, watches: seq<seq<int>>, vals: seq<int>,
                      trail: seq<int>, next: nat, n: nat, i: nat)
    requires Inv(f, d, starts, watches, vals, trail, next, n) && Visiting(d, starts, watches, vals, n, i)
    requires OthersFalse(d, starts, vals, n, i)
    ensures Entails(f, d[starts[i]])
  {
    hide Stores, Watched, Entails;
    StoresSize(f, d, starts, n);
    UnitEntailed(f, d, starts, n, i, d[starts[i]], vals, trail[..next]);
  }

  /** The first literal goes onto the trail, and this watch may go. */
  lemma InvUnit(f: Formula, d: seq<int>, starts: seq<int>, watches: seq<seq<int>>, vals: seq<int>,
                trail: seq<int>, next: nat, n: nat, i: nat)
    requires Inv(f, d, starts, watches, vals, trail, next, n) && Visiting(d, starts, watches, vals, n, i)
    requires OthersFalse(d, starts, vals, n, i)
    ensures Inv(f, d, starts, DropHead(watches, n, d[starts[i] + 1]), vals, trail + [d[starts[i]]], next, n)
  {
    hide Stores, Watched, Entails, ValuesOf;
    FirstEntailed(f, d, starts, watches, vals, trail, next, n, i);
    var t := trail + [d[starts[i]]];
    assert t[..next] == trail[..next];
    DropWatch(d, starts, watches, vals, trail, t, n, i);
  }

  /** All literals are false: there is no model. */
  lemma InvConflict(f: Formula, d: seq<int>, starts: seq<int>, watches: seq<seq<int>>, vals: seq<int>,
                    trail: seq<int>, next: nat, n: nat, i: nat)
    requires Inv(f, d, starts, watches, vals, trail, next, n) && Visiting(d, starts, watches, vals, n, i)
    requires OthersFalse(d, starts, vals, n, i) && Value(vals, n, d[starts[i]]) < 0
    ensures Unsatisfiable(f)
  {
    hide Stores, Watched, Entails, Unsatisfiable;
    var w := d[starts[i]];
    FirstEntailed(f, d, starts, watches, vals, trail, next, n, i);
    assert Value(vals, n, -w) > 0;
    assert -w in trail;
    Contradiction(f, w);
  }

  lemma BothUnassigned(f: Formula, d: seq<int>, starts: seq<int>, watches: seq<seq<int>>, vals: seq<int>,
                       trail: seq<int>, next: nat, n: nat, lit: int)
    requires Inv(f, d, starts, watches, vals, trail, next, n) && IsLit(lit, n) && |vals| == 2 * n && Value(vals, n, lit) == 0
    ensures Value(vals, n, -lit) == 0
  {}

  lemma VisitedParts(p: seq<seq<int>>, pending: seq<seq<int>>, watches: seq<seq<int>>, n: nat, fls: int)
    requires |pending| == |watches| == 2 * n && IsLit(fls, n) && ListOf(pending, n, fls) != []
    requires Visited(p, pending, watches, n, fls)
    ensures |p| == 2 * n && ListOf(p, n, fls) == ListOf(pending, n, fls)[1..]
    ensures forall l :: IsLit(l, n) && l != fls ==> ListOf(p, n, l) == ListOf(watches, n, l)
  {}

  /** p is what is still to be visited once the first entry of the list of fls is done. */
  ghost predicate Visited(p: seq<seq<int>>, pending: seq<seq<int>>, watches: seq<seq<int>>, n: nat, fls: int)
    requires |pending| == |watches| == 2 * n && IsLit(fls, n) && ListOf(pending, n, fls) != []
  {
    && |p| == 2 * n && ListOf(p, n, fls) == ListOf(pending, n, fls)[1..]
    && forall l :: IsLit(l, n) && l != fls ==> ListOf(p, n, l) == ListOf(watches, n, l)
  }

  /** The lists of false literals have been released. */
  ghost predicate FalseReleased(watches: seq<seq<int>>, vals: seq<int>, n: nat)
    requires |watches| == |vals| == 2 * n
  {
    forall l :: IsLit(l, n) && Value(vals, n, l) < 0 ==> ListOf(watches, n, l) == []
  }

  /** Makes the next literal of the trail true and visits every clause watching
      its negation. */
  method PropagateLiteral(cdb: seq<int>, trail: seq<int>, next: nat, n: nat, vals: array<int>,
                          watches: array<seq<int>>, ghost f: Formula, ghost starts: seq<int>)
    returns (cdb': seq<int>, trail': seq<int>, mt: bool)
    requires vals.Length == watches.Length == 2 * n
    requires Inv(f, cdb, starts, watches[..], vals[..], trail, next, n)
    requires next < |trail| && IsLit(trail[next], n) && vals[n + trail[next]] == 0
    requires FalseReleased(watches[..], vals[..], n)
    modifies vals, watches
    ensures mt ==> Unsatisfiable(f)
    ensures !mt ==> Inv(f, cdb', starts, watches[..], vals[..], trail', next + 1, n)
    ensures FalseReleased(watches[..], vals[..], n)
    ensures trail <= trail' && vals[..] == Assign(old(vals[..]), n, trail[next])
  {
    hide Inv, Visited, Unsatisfiable;
    cdb', trail', mt := cdb, trail, false;
    var lit := trail[next];
    AssignInv(f, cdb, starts, watches[..], vals[..], trail, next, n);
    BothUnassigned(f, cdb, starts, watches[..], vals[..], trail, next, n, lit);
    vals[n + lit] := 1;
    vals[n - lit] := -1;
    assert vals[..] == Assign(old(vals[..]), n, lit);
    var s := watches[n - lit];
    var p := 0;
    ghost var pending := watches[..];
    while p < |s| && !mt
      invariant 0 <= p <= |s| && trail <= trail'
      invariant vals[..] == Assign(old(vals[..]), n, lit)
      invariant |pending| == 2 * n && ListOf(watches[..], n, -lit) == s
      invariant forall l :: IsLit(l, n) && l != -lit && Value(vals[..], n, l) < 0 ==> ListOf(watches[..], n, l) == []
      invariant !mt ==> ListOf(pending, n, -lit) == s[p..]
      invariant !mt ==> forall l :: IsLit(l, n) && l != -lit ==> ListOf(watches[..], n, l) == ListOf(pending, n, l)
      invariant !mt ==> Inv(f, cdb', starts, pending, vals[..], trail', next + 1, n)
      invariant mt ==> Unsatisfiable(f)
    {
      ghost var was := pending;
      cdb', trail', mt := VisitClause(cdb', trail', s[p], -lit, n, vals, watches, f, starts, next + 1, pending);
      if !mt {
        pending :| Visited(pending, was, watches[..], n, -lit)
                   && Inv(f, cdb', starts, pending, vals[..], trail', next + 1, n);
        VisitedParts(pending, was, watches[..], n, -lit);
      }
      p := p + 1;
    }
    watches[n - lit] := [];
    if !mt { ListsDecideWatched(f, cdb', starts, pending, watches[..], vals[..], trail', next + 1, n); }
  }

  /** Only the lists of literals matter (the cell of the non-literal 0 does not). */
  lemma ListsDecideWatched(f: Formula, d: seq<int>, starts: seq<int>, p: seq<seq<int>>, w: seq<seq<int>>,
                           vals: seq<int>, trail: seq<int>, next: nat, n: nat)
    requires Inv(f, d, starts, p, vals, trail, next, n) && |w| == 2 * n
    requires forall l :: IsLit(l, n) ==> ListOf(p, n, l) == ListOf(w, n, l)
    ensures Inv(f, d, starts, w, vals, trail, next, n)
  {
    hide Stores, AllEntailed, StackNormalised, Layout;
    forall l | IsLit(l, n) ensures ListSound(d, starts, starts[|starts| - 1], ListOf(w, n, l), l) {
      assert ListSound(d, starts, starts[|starts| - 1], ListOf(p, n, l), l);
    }
    forall j | 0 <= j < |starts| - 1 && starts[j] + 3 <= starts[j + 1]
      ensures BothGuarded(d, starts, j, w, vals, trail, n)
    {
      CellBounds(d, starts, j);
      GuardKept(d, d, starts, j, p, w, vals, trail, trail, n);
    }
  }

  ghost function UnassignedCells(vals: seq<int>): set<int> {
    set k | 0 <= k < |vals| && vals[k] == 0
  }

  /** Propagates the whole trail. */
  method Propagate(cdb: seq<int>, trail: seq<int>, n: nat, vals: array<int>,
                   watches: array<seq<int>>, ghost f: Formula, ghost starts: seq<int>)
    returns (cdb': seq<int>, trail': seq<int>, mt: bool)
    requires vals.Length == watches.Length == 2 * n
    requires Inv(f, cdb, starts, watches[..], vals[..], trail, 0, n)
    requires FalseReleased(watches[..], vals[..], n)
    modifies vals, watches
    ensures mt ==> Unsatisfiable(f)
    ensures !mt ==> Inv(f, cdb', starts, watches[..], vals[..], trail', |trail'|, n)
    ensures FalseReleased(watches[..], vals[..], n)
    ensures trail <= trail'
  {
    hide Stores, Watched;
    cdb', trail', mt := cdb, trail, false;
    var next := 0;
    while !mt && next < |trail'|
      invariant trail <= trail' && FalseReleased(watches[..], vals[..], n)
      invariant !mt ==> Inv(f, cdb', starts, watches[..], vals[..], trail', next, n)
      invariant mt ==> Unsatisfiable(f)
      decreases !mt, UnassignedCells(vals[..]), |trail'| - next
    {
      var lit := trail'[next];
      assert lit in trail';
      if vals[n + lit] > 0 {
        assert trail'[..next + 1] == trail'[..next] + [lit];
        assert Value(vals[..], n, lit) > 0;
        next := next + 1;
      } else if vals[n + lit] < 0 {
        assert Value(vals[..], n, -lit) > 0;
        Contradiction(f, lit);
        mt := true;
      } else {
        ghost var was := vals[..];
        cdb', trail', mt := PropagateLiteral(cdb', trail', next, n, vals, watches, f, starts);
        next := next + 1;
        assert n + lit in UnassignedCells(was) && n + lit !in UnassignedCells(vals[..]);
        assert UnassignedCells(vals[..]) < UnassignedCells(was);
      }
    }
  }

  // ----- compaction ---------------------------------------------------------

  ghost predicate Satisfied(c: Clause, vals: seq<int>, n: nat)
    requires |vals| == 2 * n && Normalised(c, n)
  {
    exists l :: l in c && IsLit(l, n) && Value(vals, n, l) > 0
  }

  /** The literals of a clause that are not false. */
  ghost function Unassigned(c: Clause, vals: seq<int>, n: nat): (r: Clause)
    requires |vals| == 2 * n && forall k :: 0 <= k < |c| ==> IsLit(c[k], n)
    ensures forall l :: l in r <==> l in c && IsLit(l, n) && Value(vals, n, l) >= 0
    ensures |r| <= |c|
  {
    if c == [] then [] else
      var k := |c| - 1;
      assert c == c[..k] + [c[k]];
      Unassigned(c[..k], vals, n) + if Value(vals, n, c[k]) < 0 then [] else [c[k]]
  }

  /** Satisfied clauses dropped, false literals dropped from the others. */
  ghost function Reduced(f: Formula, vals: seq<int>, n: nat): (r: Formula)
    requires |vals| == 2 * n && AllNormalised(f, n)
    ensures |r| <= |f|
  {
    if f == [] then [] else
      var c := f[|f| - 1];
      Reduced(f[..|f| - 1], vals, n) + if Satisfied(c, vals, n) then [] else [Unassigned(c, vals, n)]
  }

  lemma ReducedNothing(vals: seq<int>, n: nat)
    requires |vals| == 2 * n
    ensures Reduced([], vals, n) == []
  {}

  lemma ReducedLast(f: Formula, vals: seq<int>, n: nat)
    requires |vals| == 2 * n && AllNormalised(f, n) && f != []
    ensures Normalised(f[|f| - 1], n) && AllNormalised(f[..|f| - 1], n)
    ensures forall c :: c in Reduced(f, vals, n) <==>
              c in Reduced(f[..|f| - 1], vals, n)
              || (!Satisfied(f[|f| - 1], vals, n) && c == Unassigned(f[|f| - 1], vals, n))
  {
    hide Satisfied, Unassigned;
  }

  /** Every clause of the reduction comes from an unsatisfied clause, and each of those is in it. */
  lemma {:induction false} ReducedMembers(f: Formula, vals: seq<int>, n: nat)
    requires |vals| == 2 * n && AllNormalised(f, n)
    ensures forall c :: c in Reduced(f, vals, n) ==>
              exists i :: 0 <= i < |f| && !Satisfied(f[i], vals, n) && c == Unassigned(f[i], vals, n)
    ensures forall i :: 0 <= i < |f| && !Satisfied(f[i], vals, n) ==> Unassigned(f[i], vals, n) in Reduced(f, vals, n)
  {
    hide Satisfied, Unassigned, Reduced;
    if f == [] {
      ReducedNothing(vals, n);
    } else {
      var m := |f| - 1;
      ReducedMembers(f[..m], vals, n);
      ReducedLast(f, vals, n);
      var r := Reduced(f[..m], vals, n);
      forall c | c in Reduced(f, vals, n)
        ensures exists i :: 0 <= i < |f| && !Satisfied(f[i], vals, n) && c == Unassigned(f[i], vals, n)
      {
        if c in r {
          var i :| 0 <= i < m && !Satisfied(f[..m][i], vals, n) && c == Unassigned(f[..m][i], vals, n);
          assert f[..m][i] == f[i];
        } else {
          assert !Satisfied(f[m], vals, n) && c == Unassigned(f[m], vals, n);
        }
      }
      forall i | 0 <= i < |f| && !Satisfied(f[i], vals, n) ensures Unassigned(f[i], vals, n) in Reduced(f, vals, n) {
        if i < m { assert f[..m][i] == f[i]; assert Unassigned(f[i], vals, n) in r; }
      }
    }
  }

  lemma {:induction false} UnassignedNormalised(c: Clause, vals: seq<int>, n: nat)
    requires |vals| == 2 * n && Normalised(c, n)
    ensures Normalised(Unassigned(c, vals, n), n)
  {
    if c != [] {
      var k := |c| - 1;
      var r := Unassigned(c[..k], vals, n);
      assert Normalised(c[..k], n);
      UnassignedNormalised(c[..k], vals, n);
      UnassignedStep(c, vals, n, k);
      assert c[..k + 1] == c && IsLit(c[k], n);
      assert forall l :: l in c[..k] ==> l != c[k] && l != -c[k];
      hide Unassigned;
      forall j | 0 <= j < |r| ensures r[j] != c[k] && r[j] != -c[k] { assert r[j] in r; }
    }
  }

  /** Under an assignment that extends the trail, a formula and its reduction agree. */
  lemma ReducedModels(f: Formula, vals: seq<int>, trail: seq<int>, n: nat, a: Assignment)
    requires AllNormalised(f, n) && ValuesOf(vals, trail, n)
    requires forall l :: l in trail ==> Holds(a, l)
    ensures Models(a, f) <==> Models(a, Reduced(f, vals, n))
  {
    ReducedMembers(f, vals, n);
    var r := Reduced(f, vals, n);
    forall i | 0 <= i < |f|
      ensures if Satisfied(f[i], vals, n) then Satisfies(a, f[i])
              else (Satisfies(a, f[i]) <==> Satisfies(a, Unassigned(f[i], vals, n)))
    {
      if Satisfied(f[i], vals, n) {
        var l :| l in f[i] && IsLit(l, n) && Value(vals, n, l) > 0;
        assert l in trail && Holds(a, l);
      } else if Satisfies(a, f[i]) {
        var l :| l in f[i] && Holds(a, l);
        assert IsLit(l, n);
        assert Value(vals, n, l) < 0 ==> -l in trail by { assert Value(vals, n, l) == -Value(vals, n, -l); }
        assert l in Unassigned(f[i], vals, n);
      }
    }
    if Models(a, f) {
      forall j | 0 <= j < |r| ensures Satisfies(a, r[j]) {
        assert r[j] in r;
        var i :| 0 <= i < |f| && !Satisfied(f[i], vals, n) && r[j] == Unassigned(f[i], vals, n);
      }
    }
    if Models(a, r) {
      forall i | 0 <= i < |f| ensures Satisfies(a, f[i]) {
        if !Satisfied(f[i], vals, n) {
          var j :| 0 <= j < |r| && r[j] == Unassigned(f[i], vals, n);
        }
      }
    }
  }

  /** After a propagation without conflict every clause is satisfied or has its
      two watched literals unassigned. */
  lemma NoUnitsLeft(f: Formula, d: seq<int>, starts: seq<int>, watches: seq<seq<int>>,
                    vals: seq<int>, trail: seq<int>, n: nat, i: nat)
    requires Inv(f, d, starts, watches, vals, trail, |trail|, n) && FalseReleased(watches, vals, n)
    requires i < |f| && |ClauseAt(d, starts, i)| > 0
    requires |ClauseAt(d, starts, i)| == 1 ==> d[starts[i]] in trail
    ensures Normalised(ClauseAt(d, starts, i), n)
    ensures Satisfied(ClauseAt(d, starts, i), vals, n) || |Unassigned(ClauseAt(d, starts, i), vals, n)| >= 2
  {
    hide SameLiterals, ListsSound, Layout;
    assert trail[..|trail|] == trail;
    var c := ClauseAt(d, starts, i);
    assert Normalised(c, n) && c[0] == d[starts[i]];
    if !Satisfied(c, vals, n) {
      assert forall k :: 0 <= k < |c| ==> c[k] in c && Value(vals, n, c[k]) <= 0;
      assert Value(vals, n, c[0]) > 0 <==> c[0] in trail;
      assert |c| >= 2 && c[1] == d[starts[i] + 1];
      assert !Doomed(vals, trail, n);
      assert BothGuarded(d, starts, i, watches, vals, trail, n);
      var r := Unassigned(c, vals, n);
      assert c[0] in r && c[1] in r;
      TwoMembers(r, c[0], c[1]);
    }
  }

  lemma TwoMembers(s: seq<int>, x: int, y: int)
    requires x in s && y in s && x != y
    ensures |s| >= 2
  {
  }

  /** Rewrites the clause stack in place, the write position never overtaking
      the read position. */
  method Compact(cdb: seq<int>, n: nat, vals: array<int>, ghost starts: seq<int>)
    returns (cdb': seq<int>, ghost starts': seq<int>)
    requires Layout(cdb, starts) && StackNormalised(cdb, starts, n) && vals.Length == 2 * n
    requires AllNormalised(Clauses(cdb, starts), n)
    ensures Layout(cdb', starts')
    ensures Clauses(cdb', starts') == Reduced(Clauses(cdb, starts), vals[..], n)
  {
    hide Layout, StackNormalised, Cell, Reduced, Unassigned, Satisfied, Normalised;
    ghost var f := Clauses(cdb, starts);
    cdb' := cdb;
    var q, c := 0, 0;
    ghost var i := 0;
    starts' := [0];
    EmptyLayout(f, vals[..], n);
    StartsEnd(cdb, starts, 0);
    while c < |cdb|
      invariant 0 <= q <= c <= |cdb'| == |cdb|
      invariant 0 <= i < |starts| && c == starts[i] && (i < |starts| - 1 <==> c < |cdb|)
      invariant cdb'[c..] == cdb[c..]
      invariant Layout(cdb'[..q], starts') && AllNormalised(f[..i], n)
      invariant Clauses(cdb'[..q], starts') == Reduced(f[..i], vals[..], n)
    {
      CellBounds(cdb, starts, i);
      StartsEnd(cdb, starts, i + 1);
      var end, satisfied := ScanClause(cdb', c, n, vals, cdb, starts, i);
      ReducedStep(f, vals[..], n, i);
      if !satisfied {
        ghost var prefix := cdb'[..q];
        cdb', q := KeepClause(cdb', q, c, end, n, vals, cdb, starts, i);
        var kept := Unassigned(f[i], vals[..], n);
        assert forall k :: 0 <= k < |kept| ==> kept[k] != 0 by {
          forall k | 0 <= k < |kept| ensures kept[k] != 0 { assert kept[k] in kept; }
        }
        LayoutAppend(prefix, starts', kept);
        starts' := starts' + [|prefix| + |kept| + 1];
      }
      c, i := end + 1, i + 1;
    }
    assert f[..i] == f;
    cdb' := cdb'[..q];
  }

  lemma EmptyLayout(f: Formula, vals: seq<int>, n: nat)
    requires |vals| == 2 * n
    ensures Layout([], [0]) && Clauses([], [0]) == [] && f[..0] == [] && Reduced([], vals, n) == []
  {}

  lemma ReducedStep(f: Formula, vals: seq<int>, n: nat, i: nat)
    requires |vals| == 2 * n && AllNormalised(f, n) && i < |f|
    ensures AllNormalised(f[..i], n) && AllNormalised(f[..i + 1], n) && Normalised(f[i], n)
    ensures Reduced(f[..i + 1], vals, n)
         == Reduced(f[..i], vals, n) + if Satisfied(f[i], vals, n) then [] else [Unassigned(f[i], vals, n)]
  {
    assert f[..i + 1][..i] == f[..i] && f[..i + 1][i] == f[i];
  }

  /** Runs over the clause at c, noting whether one of its literals is true. */
  method ScanClause(cdb': seq<int>, c: int, n: nat, vals: array<int>, ghost cdb: seq<int>, ghost starts: seq<int>, ghost i: nat)
    returns (p: int, satisfied: bool)
    requires Layout(cdb, starts) && AllNormalised(Clauses(cdb, starts), n) && vals.Length == 2 * n
    requires i < |starts| - 1 && c == starts[i] && |cdb'| == |cdb| && 0 <= c <= |cdb| && cdb'[c..] == cdb[c..]
    ensures Normalised(Clauses(cdb, starts)[i], n)
    ensures p == starts[i + 1] - 1 && c <= p < |cdb|
    ensures satisfied <==> Satisfied(Clauses(cdb, starts)[i], vals[..], n)
  {
    hide Layout, Normalised, Clauses;
    ghost var cl := Clauses(cdb, starts)[i];
    p, satisfied := c, false;
    CellBounds(cdb, starts, i);
    Read(cdb, starts, n, i, p);
    while cdb'[p] != 0
      invariant c <= p < starts[i + 1] && p < |cdb|
      invariant |cl| == starts[i + 1] - 1 - c && Normalised(cl, n)
      invariant cdb[p] == 0 <==> p == starts[i + 1] - 1
      invariant p < starts[i + 1] - 1 ==> cdb[p] == cl[p - c] && IsLit(cl[p - c], n)
      invariant satisfied <==> exists l :: l in cl[..p - c] && IsLit(l, n) && Value(vals[..], n, l) > 0
      decreases |cdb| - p
    {
      assert cdb'[p] == cdb'[c..][p - c] == cdb[c..][p - c];
      assert cl[..p - c + 1] == cl[..p - c] + [cl[p - c]];
      if vals[n + cdb'[p]] > 0 {
        assert Value(vals[..], n, cl[p - c]) > 0;
        satisfied := true;
      }
      p := p + 1;
      Read(cdb, starts, n, i, p);
    }
    assert cdb'[p] == cdb'[c..][p - c] == cdb[c..][p - c];
    assert cl[..p - c] == cl;
  }

  /** Copies the literals that are not false down to the write position. */
  method KeepClause(cdb0: seq<int>, q0: int, c: int, end: int, n: nat, vals: array<int>,
                    ghost cdb: seq<int>, ghost starts: seq<int>, ghost i: nat)
    returns (cdb': seq<int>, q: int)
    requires Layout(cdb, starts) && AllNormalised(Clauses(cdb, starts), n) && vals.Length == 2 * n
    requires i < |starts| - 1 && c == starts[i] && end == starts[i + 1] - 1
    requires |cdb0| == |cdb| && 0 <= q0 <= c <= end < |cdb| && cdb0[c..] == cdb[c..]
    requires Normalised(Clauses(cdb, starts)[i], n)
    ensures |cdb'| == |cdb| && q0 < q <= end + 1 && cdb'[end + 1..] == cdb[end + 1..]
    ensures cdb'[..q] == cdb0[..q0] + Unassigned(Clauses(cdb, starts)[i], vals[..], n) + [0]
  {
    hide Layout, Normalised, AllNormalised, Clauses, Unassigned;
    ghost var cl := Clauses(cdb, starts)[i];
    ghost var base, kept := cdb0[..q0], Unassigned(cl[..0], vals[..], n);
    NothingUnassigned(vals[..], n);
    cdb', q := cdb0, q0;
    var p := c;
    Read(cdb, starts, n, i, p);
    assert cdb0[p] == cdb0[c..][0] && cdb[p] == cdb[c..][0];
    while cdb'[p] != 0
      invariant c <= p <= end && q0 <= q <= p && |cdb'| == |cdb| && |cl| == end - c
      invariant cdb'[p..] == cdb[p..] && cdb'[p] == cdb[p]
      invariant cdb[p] == 0 <==> p == end
      invariant p < end ==> cdb[p] == cl[p - c] && IsLit(cl[p - c], n)
      invariant forall k :: 0 <= k < p - c ==> IsLit(cl[k], n)
      invariant kept == Unassigned(cl[..p - c], vals[..], n)
      invariant cdb'[..q] == base + kept
      decreases |cdb| - p
    {
      UnassignedStep(cl, vals[..], n, p - c);
      var lit := cdb'[p];
      Suffix(cdb', cdb, q, p, lit);
      if vals[n + lit] >= 0 {
        WriteDown(cdb', q, base, kept, lit);
        kept := kept + [lit];
        cdb' := cdb'[q := lit];
        q := q + 1;
      }
      p := p + 1;
      Read(cdb, starts, n, i, p);
    }
    assert cl[..p - c] == cl;
    WriteDown(cdb', q, base, kept, 0);
    Suffix(cdb', cdb, q, p, 0);
    cdb' := cdb'[q := 0];
    q := q + 1;
  }

  /** A write no later than position p leaves what follows p. */
  lemma Suffix(d: seq<int>, e: seq<int>, q: nat, p: nat, x: int)
    requires q <= p < |d| == |e| && d[p..] == e[p..]
    ensures d[q := x][p + 1..] == d[p + 1..] == e[p + 1..]
    ensures p + 1 < |d| ==> d[q := x][p + 1] == d[p + 1] == e[p + 1]
  {
    assert d[p + 1..] == d[p..][1..] && e[p + 1..] == e[p..][1..];
    assert p + 1 < |d| ==> d[p + 1] == d[p..][1] && e[p + 1] == e[p..][1];
  }

  lemma NothingUnassigned(vals: seq<int>, n: nat)
    requires |vals| == 2 * n
    ensures Unassigned([], vals, n) == []
  {}

  lemma WriteDown(d: seq<int>, q: nat, base: seq<int>, kept: seq<int>, x: int)
    requires q < |d| && d[..q] == base + kept
    ensures d[q := x][..q + 1] == base + (kept + [x]) == base + kept + [x]
  {
    assert d[q := x][..q + 1] == d[..q] + [x];
  }

  lemma UnassignedStep(c: Clause, vals: seq<int>, n: nat, k: nat)
    requires |vals| == 2 * n && k < |c| && forall j :: 0 <= j <= k ==> IsLit(c[j], n)
    ensures Unassigned(c[..k + 1], vals, n)
         == Unassigned(c[..k], vals, n) + if Value(vals, n, c[k]) < 0 then [] else [c[k]]
  {
    assert c[..k + 1][..k] == c[..k];
  }

  // ----- the whole preprocessing --------------------------------------------

  ghost predicate ExtendsTrail(a: Assignment, trail: seq<int>) {
    forall l :: l in trail ==> Holds(a, l)
  }

  /** What unit propagation promises: the remaining clauses and the trail
      together mean what the clauses meant before, and the two do not touch. */
  ghost predicate Propagated(f: Formula, f': Formula, trail: seq<int>, n: nat) {
    && (forall a :: Models(a, f) <==> Models(a, f') && ExtendsTrail(a, trail))
    && (forall l :: l in trail ==> IsLit(l, n) && -l !in trail)
    && AllNormalised(f', n) && |f'| <= |f|
    && (forall i :: 0 <= i < |f'| ==> |f'[i]| >= 2)
    && (forall i, l :: 0 <= i < |f'| && l in f'[i] ==> l !in trail && -l !in trail)
  }

  lemma PropagationResult(f: Formula, d: seq<int>, starts: seq<int>, watches: seq<seq<int>>,
                          vals: seq<int>, trail: seq<int>, n: nat)
    requires Inv(f, d, starts, watches, vals, trail, |trail|, n) && FalseReleased(watches, vals, n)
    requires AllNormalised(f, n)
    requires forall i :: 0 <= i < |f| ==> |ClauseAt(d, starts, i)| > 0
    requires forall i :: 0 <= i < |f| && |ClauseAt(d, starts, i)| == 1 ==> d[starts[i]] in trail
    ensures AllNormalised(Clauses(d, starts), n)
    ensures Propagated(f, Reduced(Clauses(d, starts), vals, n), trail, n)
  {
    hide Watched, StackNormalised;
    assert trail[..|trail|] == trail;
    var g := Clauses(d, starts);
    forall i | 0 <= i < |g|
      ensures Normalised(g[i], n) && SameLiterals(f[i], g[i])
           && (Satisfied(g[i], vals, n) || |Unassigned(g[i], vals, n)| >= 2)
    {
      NoUnitsLeft(f, d, starts, watches, vals, trail, n, i);
      assert g[i] == ClauseAt(d, starts, i);
    }
    hide Inv, Stores, Clauses, Layout, Propagated, Normalised, FalseReleased;
    forall a ensures Models(a, f) <==> Models(a, Reduced(g, vals, n)) && ExtendsTrail(a, trail) {
      SameModels(f, g, a);
      assert Models(a, f) ==> ExtendsTrail(a, trail);
      if ExtendsTrail(a, trail) { ReducedModels(g, vals, trail, n, a); }
    }
    ReductionApart(f, g, vals, trail, n);
  }

  /** The reduction has no units and shares no variable with the trail. */
  lemma ReductionApart(f: Formula, g: Formula, vals: seq<int>, trail: seq<int>, n: nat)
    requires ValuesOf(vals, trail, n) && AllNormalised(g, n) && forall l :: l in trail ==> IsLit(l, n)
    requires |g| == |f|
    requires forall i :: 0 <= i < |g| ==> Satisfied(g[i], vals, n) || |Unassigned(g[i], vals, n)| >= 2
    requires forall a :: Models(a, f) <==> Models(a, Reduced(g, vals, n)) && ExtendsTrail(a, trail)
    ensures Propagated(f, Reduced(g, vals, n), trail, n)
  {
    hide Reduced, Unassigned, Models;
    var r := Reduced(g, vals, n);
    ReducedMembers(g, vals, n);
    forall l | l in trail ensures -l !in trail {
      assert Value(vals, n, l) > 0 && Value(vals, n, l) == -Value(vals, n, -l);
    }
    forall j | 0 <= j < |r|
      ensures Normalised(r[j], n) && |r[j]| >= 2 && forall l :: l in r[j] ==> l !in trail && -l !in trail
    {
      hide Normalised;
      assert r[j] in r;
      var i :| 0 <= i < |g| && !Satisfied(g[i], vals, n) && r[j] == Unassigned(g[i], vals, n);
      assert Normalised(g[i], n);
      UnassignedNormalised(g[i], vals, n);
      forall l | l in r[j] ensures l !in trail && -l !in trail {
        assert Value(vals, n, l) == 0 && Value(vals, n, l) == -Value(vals, n, -l);
      }
    }
  }

  lemma SameModels(f: Formula, g: Formula, a: Assignment)
    requires |f| == |g| && forall i :: 0 <= i < |f| ==> SameLiterals(f[i], g[i])
    ensures Models(a, f) <==> Models(a, g)
  {
    assert forall i :: 0 <= i < |f| ==> (Satisfies(a, f[i]) <==> Satisfies(a, g[i]));
  }

  /** The trail holds the unit clauses, and nothing else. */
  ghost predicate TrailOfUnits(f: Formula, trail: seq<int>, n: nat) {
    && (forall i :: 0 <= i < |f| && |f[i]| == 1 ==> f[i][0] in trail)
    && (forall l :: l in trail ==> IsLit(l, n) && [l] in f)
  }

  lemma InitialInv(f: Formula, d: seq<int>, starts: seq<int>, watches: seq<seq<int>>,
                   vals: seq<int>, trail: seq<int>, n: nat)
    requires Layout(d, starts) && f == Clauses(d, starts) && AllNormalised(f, n) && TrailOfUnits(f, trail, n)
    requires |vals| == 2 * n && forall k :: 0 <= k < |vals| ==> vals[k] == 0
    requires Watched(d, starts, |starts| - 1, watches, vals, trail, n)
    ensures Inv(f, d, starts, watches, vals, trail, 0, n)
    ensures FalseReleased(watches, vals, n)
  {
    assert trail[..0] == [];
    assert Stores(f, d, starts, n) by { hide BothGuarded, ListsSound; }
    assert ValuesOf(vals, [], n) && FalseReleased(watches, vals, n) by { hide Watched; }
    hide Watched, Layout, Stores, ValuesOf, FalseReleased;
    forall l | l in trail ensures Entails(f, l) {
      var i :| 0 <= i < |f| && f[i] == [l];
      forall a | Models(a, f) ensures Holds(a, l) { assert Satisfies(a, f[i]); }
    }
  }

  lemma FirstTwoDiffer(c: Clause, n: nat)
    requires Normalised(c, n)
    ensures |c| >= 2 ==> c[0] != c[1]
  {}

  /** The set of literals of a unit or empty clause fixes the clause. */
  lemma ShortClause(c: Clause, d: Clause, n: nat)
    requires SameLiterals(c, d) && Normalised(c, n) && Normalised(d, n)
    ensures |c| > 0 ==> |d| > 0
    ensures |d| == 1 ==> |c| == 1 && c[0] == d[0]
  {
    assert |c| > 0 ==> c[0] in d;
    if |d| == 1 {
      assert d[0] in c;
      assert forall k :: 0 <= k < |c| ==> c[k] in d;
      FirstTwoDiffer(c, n);
    }
  }

  method Preprocess(cdb: seq<int>, trail: seq<int>, n: nat, ghost starts: seq<int>)
    returns (cdb': seq<int>, trail': seq<int>, mt: bool, ghost starts': seq<int>)
    requires Layout(cdb, starts) && AllNormalised(Clauses(cdb, starts), n)
    requires TrailOfUnits(Clauses(cdb, starts), trail, n)
    requires forall i :: 0 <= i < |Clauses(cdb, starts)| ==> |Clauses(cdb, starts)[i]| > 0
    ensures mt ==> Unsatisfiable(Clauses(cdb, starts))
    ensures !mt ==> Layout(cdb', starts') && Propagated(Clauses(cdb, starts), Clauses(cdb', starts'), trail', n)
    ensures trail <= trail'
  {
    ghost var f := Clauses(cdb, starts);
    var vals := new int[2 * n](_ => 0);
    assert StackNormalised(cdb, starts, n) by {
      forall i | 0 <= i < |starts| - 1 ensures Normalised(ClauseAt(cdb, starts, i), n) { assert ClauseAt(cdb, starts, i) == f[i]; }
    }
    var watches := ConnectWatches(cdb, n, starts, vals[..], trail);
    InitialInv(f, cdb, starts, watches[..], vals[..], trail, n);
    cdb', trail', mt := Propagate(cdb, trail, n, vals, watches, f, starts);
    starts' := starts;
    if mt { return; }
    forall i | 0 <= i < |f|
      ensures |ClauseAt(cdb', starts, i)| > 0 && (|ClauseAt(cdb', starts, i)| == 1 ==> cdb'[starts[i]] in trail')
    {
      ShortClause(f[i], ClauseAt(cdb', starts, i), n);
      assert |ClauseAt(cdb', starts, i)| == 1 ==> ClauseAt(cdb', starts, i)[0] == cdb'[starts[i]];
    }
    PropagationResult(f, cdb', starts, watches[..], vals[..], trail', n);
    cdb', starts' := Compact(cdb', n, vals, starts);
  }
}
