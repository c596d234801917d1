/** The occurrence index: for every literal a list, closed by -1, of the
    clauses that hold it, all lists packed into one buffer by counting sort. */
module Occurrences {
  import opened Cnf

  const LEN_SHIFT := 6
  const MAX_LEN := 63

  function Capped(len: nat): (r: nat) {
    if len < MAX_LEN then len else MAX_LEN
  }

  /** The packed cell: clause index above, capped length in the low six bits. */
  function Pack(cidx: nat, len: nat): int {
    64 * cidx + Capped(len)
  }

  function ClauseOf(cell: int): int { cell / 64 }

  function LengthOf(cell: int): int { cell % 64 }

  lemma Unpack(cidx: nat, len: nat)
    ensures ClauseOf(Pack(cidx, len)) == cidx && LengthOf(Pack(cidx, len)) == Capped(len)
  {}

  /** The shifts and masks of the machine representation compute the same
      cell, as long as the clause index fits: at most 2^25 - 1 clauses. */
  lemma PackIsShift(cidx: bv32, len: bv32)
    requires cidx < 0x200_0000 && len < 64
    ensures ((cidx << 6) | len) >> 6 == cidx && ((cidx << 6) | len) & 63 == len
    ensures (cidx << 6) | len < 0x8000_0000
  {}

  // ----- the specification ---------------------------------------------------

  /** The packed occurrences of lit in the first m clauses, by clause index. */
  ghost function OccList(f: Formula, lit: int, m: nat): seq<int>
    requires m <= |f|
  {
    if m == 0 then [] else
      OccList(f, lit, m - 1) + if lit in f[m - 1] then [Pack(m - 1, |f[m - 1]|)] else []
  }

  ghost function Occs(f: Formula, lit: int): seq<int> {
    OccList(f, lit, |f|)
  }

  /** The list names exactly the clauses holding the literal, each once, in order. */
  lemma {:induction false} OccListExact(f: Formula, lit: int, m: nat)
    requires m <= |f|
    ensures forall k :: 0 <= k < |OccList(f, lit, m)| ==> IsOccurrence(f, lit, m, OccList(f, lit, m)[k])
    ensures forall j, k :: 0 <= j < k < |OccList(f, lit, m)| ==> ClauseOf(OccList(f, lit, m)[j]) < ClauseOf(OccList(f, lit, m)[k])
    ensures forall i :: 0 <= i < m && lit in f[i] ==> Pack(i, |f[i]|) in OccList(f, lit, m)
  {
    if m > 0 {
      OccListExact(f, lit, m - 1);
      Unpack(m - 1, |f[m - 1]|);
    }
  }

  ghost predicate IsOccurrence(f: Formula, lit: int, m: nat, cell: int) {
    var i := ClauseOf(cell);
    0 <= i < m <= |f| && lit in f[i] && cell == Pack(i, |f[i]|) && LengthOf(cell) == Capped(|f[i]|)
  }

  /** Cells taken by the lists of the first v variables. */
  ghost function Base(f: Formula, v: int): nat
    requires v >= 0
  {
    if v == 0 then 0 else Base(f, v - 1) + |Occs(f, v)| + |Occs(f, -v)| + 2
  }

  /** Start of the list of a literal: the lists of 1, -1, 2, -2, ... follow each other. */
  ghost function Start(f: Formula, lit: int): nat
    requires lit != 0
  {
    Base(f, Abs(lit) - 1) + if lit < 0 then |Occs(f, -lit)| + 1 else 0
  }

  /** Size of the whole buffer. */
  ghost function Size(f: Formula, n: nat): nat {
    if n == 0 then 0 else Base(f, n - 1)
  }

  /** Position of a literal in the order 1, -1, 2, -2, ... */
  ghost function Slot(lit: int): int {
    2 * Abs(lit) - if lit > 0 then 1 else 0
  }

  lemma {:induction false} BaseMonotone(f: Formula, a: nat, b: nat)
    requires a <= b
    ensures Base(f, a) <= Base(f, b)
    decreases b
  {
    if a < b { BaseMonotone(f, a, b - 1); }
  }

  /** Cells of different literals never coincide, and all lie within the buffer. */
  lemma ListsApart(f: Formula, n: nat, l: int, m: int)
    requires IsLit(l, n) && IsLit(m, n)
    ensures Start(f, l) + |Occs(f, l)| < Size(f, n)
    ensures l != m ==> Start(f, l) + |Occs(f, l)| < Start(f, m) || Start(f, m) + |Occs(f, m)| < Start(f, l)
  {
    BaseMonotone(f, Abs(l), n - 1);
    if Abs(l) < Abs(m) { BaseMonotone(f, Abs(l), Abs(m) - 1); }
    if Abs(m) < Abs(l) { BaseMonotone(f, Abs(m), Abs(l) - 1); }
  }

  /** The block of one literal once the cells `list` have been written:
      `list`, then unwritten cells, then the closing -1. */
  ghost predicate Block(f: Formula, n: nat, refs: seq<int>, occs: seq<int>, lit: int, next: int, list: seq<int>)
    requires |refs| == 2 * n && IsLit(lit, n)
  {
    var b := Start(f, lit);
    && refs[Ref(lit)] == next
    && |list| <= |Occs(f, lit)| && b + |Occs(f, lit)| < |occs|
    && occs[b..b + |list|] == list
    && occs[b + |Occs(f, lit)|] == -1
  }

  /** The finished index: every literal refers to its exact list, and the
      lists fill the buffer. */
  ghost predicate Indexed(f: Formula, n: nat, refs: seq<int>, occs: seq<int>) {
    && |refs| == 2 * n && |occs| == Size(f, n)
    && forall l :: IsLit(l, n) ==> Block(f, n, refs, occs, l, Start(f, l), Occs(f, l))
  }

  // ----- filling -------------------------------------------------------------

  /** The list of lit after i clauses and k literals of the next one. */
  ghost function Partial(f: Formula, lit: int, i: nat, k: nat): seq<int>
    requires i < |f| && k <= |f[i]|
  {
    OccList(f, lit, i) + if lit in f[i][..k] then [Pack(i, |f[i]|)] else []
  }

  lemma PartialStep(f: Formula, n: nat, i: nat, k: nat, lit: int)
    requires i < |f| && k < |f[i]| && Normalised(f[i], n)
    ensures lit != f[i][k] ==> Partial(f, lit, i, k + 1) == Partial(f, lit, i, k)
    ensures lit == f[i][k] ==> Partial(f, lit, i, k) == OccList(f, lit, i)
    ensures lit == f[i][k] ==> Partial(f, lit, i, k + 1) == Partial(f, lit, i, k) + [Pack(i, |f[i]|)]
  {
    assert f[i][..k + 1] == f[i][..k] + [f[i][k]];
  }

  lemma PartialEnds(f: Formula, i: nat, lit: int)
    requires i < |f|
    ensures Partial(f, lit, i, 0) == OccList(f, lit, i)
    ensures Partial(f, lit, i, |f[i]|) == OccList(f, lit, i + 1)
  {
    assert f[i][..|f[i]|] == f[i];
  }

  lemma {:induction false} PartialShort(f: Formula, i: nat, k: nat, lit: int, m: nat)
    requires i < m <= |f| && k <= |f[i]|
    ensures |Partial(f, lit, i, k)| <= |OccList(f, lit, m)|
    ensures lit in f[i] ==> |OccList(f, lit, i)| < |OccList(f, lit, m)|
    decreases m
  {
    if m == i + 1 {
      if lit in f[i][..k] { assert lit in f[i]; }
    } else {
      PartialShort(f, i, k, lit, m - 1);
    }
  }

  /** The clause stack as `yals_lits` reads it. */
  ghost predicate Stack(f: Formula, n: nat, cdb: seq<int>, starts: seq<int>) {
    Layout(cdb, starts) && f == Clauses(cdb, starts) && AllNormalised(f, n)
  }

  lemma ReadStack(f: Formula, n: nat, cdb: seq<int>, starts: seq<int>, i: nat, k: nat)
    requires Stack(f, n, cdb, starts) && i < |f| && k <= |f[i]|
    ensures |starts| == |f| + 1 && 0 <= starts[i] && starts[i] + |f[i]| < |cdb| && Normalised(f[i], n)
    ensures starts[i + 1] == starts[i] + |f[i]| + 1
    ensures cdb[starts[i] + k] == 0 <==> k == |f[i]|
    ensures k < |f[i]| ==> cdb[starts[i] + k] == f[i][k] && IsLit(f[i][k], n) && f[i][k] in f[i]
  {
    CellBounds(cdb, starts, i);
    Read(cdb, starts, n, i, starts[i]);
    Read(cdb, starts, n, i, starts[i] + k);
  }

  lemma ReadAt(f: Formula, n: nat, cdb: seq<int>, starts: seq<int>, i: nat, k: nat, p: int)
    requires Stack(f, n, cdb, starts) && i < |f| && k <= |f[i]| && |starts| == |f| + 1 && p == starts[i] + k
    ensures 0 <= p < |cdb| && (cdb[p] == 0 <==> k == |f[i]|)
    ensures k < |f[i]| ==> cdb[p] == f[i][k] && IsLit(f[i][k], n) && f[i][k] in f[i]
  {
    ReadStack(f, n, cdb, starts, i, k);
  }

  ghost predicate OccsCounted(f: Formula, n: nat, count: seq<int>, i: nat) {
    |count| == 2 * n && i <= |f| && forall l :: IsLit(l, n) ==> count[n + l] == |OccList(f, l, i)|
  }

  ghost predicate OccsCountedPart(f: Formula, n: nat, count: seq<int>, i: nat, k: nat) {
    && |count| == 2 * n && i < |f| && k <= |f[i]|
    && forall l :: IsLit(l, n) ==> count[n + l] == |Partial(f, l, i, k)|
  }

  lemma CountStep(f: Formula, n: nat, count: seq<int>, i: nat, k: nat)
    requires OccsCountedPart(f, n, count, i, k) && k < |f[i]| && Normalised(f[i], n)
    ensures OccsCountedPart(f, n, count[n + f[i][k] := count[n + f[i][k]] + 1], i, k + 1)
  {
    forall l | IsLit(l, n) ensures count[n + f[i][k] := count[n + f[i][k]] + 1][n + l] == |Partial(f, l, i, k + 1)| {
      PartialStep(f, n, i, k, l);
    }
  }

  lemma CountEnds(f: Formula, n: nat, count: seq<int>, i: nat)
    requires i < |f| && |count| == 2 * n
    ensures OccsCounted(f, n, count, i) <==> OccsCountedPart(f, n, count, i, 0)
    ensures OccsCountedPart(f, n, count, i, |f[i]|) <==> OccsCounted(f, n, count, i + 1)
  {
    forall l | IsLit(l, n)
      ensures Partial(f, l, i, 0) == OccList(f, l, i) && Partial(f, l, i, |f[i]|) == OccList(f, l, i + 1)
    {
      PartialEnds(f, i, l);
    }
  }

  /** First pass: how often every literal occurs. */
  method CountOccurrences(cdb: seq<int>, lits: array<int>, n: nat, ghost f: Formula, ghost starts: seq<int>)
    returns (count: array<int>)
    requires Stack(f, n, cdb, starts) && lits[..] == starts[..|starts| - 1]
    ensures fresh(count) && OccsCounted(f, n, count[..], |f|)
  {
    hide Stack, OccsCounted, OccsCountedPart, Normalised;
    count := new int[2 * n](_ => 0);
    assert OccsCounted(f, n, count[..], 0) by { NothingCounted(f, n, count[..]); }
    var cidx := 0;
    StackSize(f, n, cdb, starts);
    while cidx < lits.Length
      invariant 0 <= cidx <= |f| && count.Length == 2 * n
      invariant OccsCounted(f, n, count[..], cidx)
    {
      var p := lits[cidx];
      assert p == lits[..][cidx] == starts[cidx];
      ReadStack(f, n, cdb, starts, cidx, 0);
      CountEnds(f, n, count[..], cidx);
      while cdb[p] != 0
        invariant starts[cidx] <= p <= starts[cidx] + |f[cidx]| < |cdb| && count.Length == 2 * n
        invariant OccsCountedPart(f, n, count[..], cidx, p - starts[cidx])
        decreases |cdb| - p
      {
        ghost var k := p - starts[cidx];
        ReadStack(f, n, cdb, starts, cidx, k);
        CountStep(f, n, count[..], cidx, k);
        var lit := cdb[p];
        ghost var was := count[..];
        count[n + lit] := count[n + lit] + 1;
        assert count[..] == was[n + lit := was[n + lit] + 1];
        p := p + 1;
      }
      ReadStack(f, n, cdb, starts, cidx, p - starts[cidx]);
      CountEnds(f, n, count[..], cidx);
      cidx := cidx + 1;
    }
  }

  lemma CountOf(f: Formula, n: nat, count: seq<int>, lit: int)
    requires OccsCounted(f, n, count, |f|) && IsLit(lit, n)
    ensures |count| == 2 * n && count[n + lit] == |Occs(f, lit)|
  {}

  lemma CountSize(f: Formula, n: nat, count: seq<int>)
    requires OccsCounted(f, n, count, |f|)
    ensures |count| == 2 * n
  {}

  lemma NothingCounted(f: Formula, n: nat, count: seq<int>)
    requires |count| == 2 * n && forall k :: 0 <= k < |count| ==> count[k] == 0
    ensures OccsCounted(f, n, count, 0)
  {}

  lemma StackSize(f: Formula, n: nat, cdb: seq<int>, starts: seq<int>)
    requires Stack(f, n, cdb, starts)
    ensures |starts| == |f| + 1 && starts[0] == 0 && starts[|f|] == |cdb|
  {}

  // ----- placing, filling and rewinding --------------------------------------

  /** A write into the block of another literal leaves a block alone. */
  lemma BlockKept(f: Formula, n: nat, refs: seq<int>, occs: seq<int>, refs': seq<int>, occs': seq<int>,
                  l: int, next: int, list: seq<int>, m: int)
    requires |refs| == |refs'| == 2 * n && |occs| == |occs'| && IsLit(l, n) && IsLit(m, n) && l != m
    requires Block(f, n, refs, occs, l, next, list)
    requires forall k :: 0 <= k < |refs| && k != Ref(m) ==> refs'[k] == refs[k]
    requires forall x :: 0 <= x < |occs| && !(Start(f, m) <= x <= Start(f, m) + |Occs(f, m)|) ==> occs'[x] == occs[x]
    ensures Block(f, n, refs', occs', l, next, list)
  {
    ListsApart(f, n, l, m);
  }

  /** The blocks of the first variables are laid out, their lists still empty. */
  ghost predicate Placed(f: Formula, n: nat, refs: seq<int>, occs: seq<int>, upto: int) {
    && |refs| == 2 * n && |occs| == Size(f, n)
    && forall l :: IsLit(l, n) && Slot(l) < upto ==> Block(f, n, refs, occs, l, Start(f, l), [])
  }

  /** Closes the block of one literal and returns where the next block starts. */
  method PlaceLiteral(lit: int, pos: int, cnt: int, n: nat, refs: array<int>, occs: array<int>, ghost f: Formula)
    returns (next: int)
    requires refs.Length == 2 * n && refs != occs && IsLit(lit, n)
    requires pos == Start(f, lit) && cnt == |Occs(f, lit)|
    requires Placed(f, n, refs[..], occs[..], Slot(lit))
    modifies refs, occs
    ensures next == Start(f, lit) + |Occs(f, lit)| + 1
    ensures Placed(f, n, refs[..], occs[..], Slot(lit) + 1)
  {
    ListsApart(f, n, lit, lit);
    refs[Ref(lit)] := pos;
    next := pos + cnt;
    occs[next] := -1;
    next := next + 1;
    forall l | IsLit(l, n) && Slot(l) < Slot(lit) + 1
      ensures Block(f, n, refs[..], occs[..], l, Start(f, l), [])
    {
      if l != lit {
        BlockKept(f, n, old(refs[..]), old(occs[..]), refs[..], occs[..], l, Start(f, l), [], lit);
      }
    }
  }

  lemma NothingPlaced(f: Formula, n: nat, refs: seq<int>, occs: seq<int>)
    requires |refs| == 2 * n && |occs| == Size(f, n)
    ensures Placed(f, n, refs, occs, 1)
    ensures n == 0 ==> Placed(f, n, refs, occs, 2 * n - 1)
  {}

  /** Second pass: sizes the buffer and lays out one empty list per literal. */
  method PlaceLists(count: array<int>, n: nat, ghost f: Formula) returns (refs: array<int>, occs: array<int>)
    requires OccsCounted(f, n, count[..], |f|)
    ensures fresh(refs) && fresh(occs) && refs != occs
    ensures Placed(f, n, refs[..], occs[..], 2 * n - 1)
  {
    hide Placed, OccsCounted, Block, Occs;
    CountSize(f, n, count[..]);
    var size, lit := 0, 1;
    while lit < n
      invariant 1 <= lit && (if n == 0 then lit == 1 else lit <= n) && size == Base(f, lit - 1)
    {
      CountOf(f, n, count[..], lit);
      CountOf(f, n, count[..], -lit);
      size := size + count[n + lit] + count[n - lit] + 2;
      lit := lit + 1;
    }
    assert size == Size(f, n);
    occs := new int[size](_ => 0);
    refs := new int[2 * n](_ => 0);
    var pos := 0;
    lit := 1;
    NothingPlaced(f, n, refs[..], occs[..]);
    while lit < n
      invariant 1 <= lit && (if n == 0 then lit == 1 else lit <= n) && pos == Base(f, lit - 1)
      invariant refs.Length == 2 * n && occs.Length == size
      invariant Placed(f, n, refs[..], occs[..], 2 * lit - 1)
      invariant n == 0 ==> Placed(f, n, refs[..], occs[..], 2 * n - 1)
    {
      CountOf(f, n, count[..], lit);
      CountOf(f, n, count[..], -lit);
      pos := PlaceLiteral(lit, pos, count[n + lit], n, refs, occs, f);
      pos := PlaceLiteral(-lit, pos, count[n - lit], n, refs, occs, f);
      lit := lit + 1;
    }
  }

  ghost predicate FilledPart(f: Formula, n: nat, refs: seq<int>, occs: seq<int>, i: nat, k: nat) {
    && |refs| == 2 * n && |occs| == Size(f, n) && i < |f| && k <= |f[i]|
    && forall l :: IsLit(l, n) ==>
         Block(f, n, refs, occs, l, Start(f, l) + |Partial(f, l, i, k)|, Partial(f, l, i, k))
  }

  ghost predicate Filled(f: Formula, n: nat, refs: seq<int>, occs: seq<int>, i: nat) {
    && |refs| == 2 * n && |occs| == Size(f, n) && i <= |f|
    && forall l :: IsLit(l, n) ==>
         Block(f, n, refs, occs, l, Start(f, l) + |OccList(f, l, i)|, OccList(f, l, i))
  }

  lemma FilledStart(f: Formula, n: nat, refs: seq<int>, occs: seq<int>, i: nat)
    requires i < |f| && Filled(f, n, refs, occs, i)
    ensures FilledPart(f, n, refs, occs, i, 0)
  {
    hide Block;
    forall l | IsLit(l, n)
      ensures Block(f, n, refs, occs, l, Start(f, l) + |Partial(f, l, i, 0)|, Partial(f, l, i, 0))
    {
      PartialEnds(f, i, l);
    }
  }

  lemma FilledEnd(f: Formula, n: nat, refs: seq<int>, occs: seq<int>, i: nat)
    requires i < |f| && FilledPart(f, n, refs, occs, i, |f[i]|)
    ensures Filled(f, n, refs, occs, i + 1)
  {
    hide Block;
    forall l | IsLit(l, n)
      ensures Block(f, n, refs, occs, l, Start(f, l) + |OccList(f, l, i + 1)|, OccList(f, l, i + 1))
    {
      PartialEnds(f, i, l);
    }
  }

  /** Writing the cell of clause i at the end of the list of its k-th literal. */
  lemma FillStep(f: Formula, n: nat, refs: seq<int>, occs: seq<int>, i: nat, k: nat)
    requires FilledPart(f, n, refs, occs, i, k) && k < |f[i]| && Normalised(f[i], n)
    ensures var lit := f[i][k];
            && IsLit(lit, n)
            && 0 <= refs[Ref(lit)] < |occs|
            && FilledPart(f, n, refs[Ref(lit) := refs[Ref(lit)] + 1],
                          occs[refs[Ref(lit)] := Pack(i, |f[i]|)], i, k + 1)
  {
    hide Normalised;
    var lit := f[i][k];
    assert Normalised(f[i], n) && lit in f[i];
    assert IsLit(lit, n) by { LitOf(f[i], n, k); }
    var b, list := Start(f, lit), Partial(f, lit, i, k);
    assert Block(f, n, refs, occs, lit, b + |list|, list);
    PartialStep(f, n, i, k, lit);
    PartialShort(f, i, k, lit, |f|);
    var refs', occs' := refs[Ref(lit) := refs[Ref(lit)] + 1], occs[refs[Ref(lit)] := Pack(i, |f[i]|)];
    assert occs'[b..b + |list| + 1] == list + [Pack(i, |f[i]|)];
    forall l | IsLit(l, n)
      ensures Block(f, n, refs', occs', l, Start(f, l) + |Partial(f, l, i, k + 1)|, Partial(f, l, i, k + 1))
    {
      PartialStep(f, n, i, k, l);
      if l != lit {
        BlockKept(f, n, refs, occs, refs', occs', l, Start(f, l) + |Partial(f, l, i, k)|, Partial(f, l, i, k), lit);
      }
    }
  }

  lemma LitOf(c: Clause, n: nat, k: nat)
    requires Normalised(c, n) && k < |c|
    ensures IsLit(c[k], n)
  {}

  /** Third pass: enters every clause into the lists of its literals. */
  method FillLists(cdb: seq<int>, lits: array<int>, n: nat, refs: array<int>, occs: array<int>,
                   ghost f: Formula, ghost starts: seq<int>)
    requires Stack(f, n, cdb, starts) && lits[..] == starts[..|starts| - 1]
    requires refs != occs && lits != refs && lits != occs && Filled(f, n, refs[..], occs[..], 0)
    modifies refs, occs
    ensures Filled(f, n, refs[..], occs[..], |f|)
  {
    hide Stack, Filled, FilledPart, Normalised;
    var cidx := 0;
    StackSize(f, n, cdb, starts);
    FilledSizes(f, n, refs[..], occs[..], 0);
    while cidx < lits.Length
      invariant 0 <= cidx <= |f|
      invariant Filled(f, n, refs[..], occs[..], cidx)
    {
      var p := lits[cidx];
      assert p == lits[..][cidx] == starts[cidx];
      ReadStack(f, n, cdb, starts, cidx, 0);
      var len := CappedLength(cdb, p, n, f, starts, cidx);
      FilledStart(f, n, refs[..], occs[..], cidx);
      while cdb[p] != 0
        invariant starts[cidx] <= p <= starts[cidx] + |f[cidx]| < |cdb|
        invariant FilledPart(f, n, refs[..], occs[..], cidx, p - starts[cidx])
        decreases |cdb| - p
      {
        ghost var k := p - starts[cidx];
        ReadStack(f, n, cdb, starts, cidx, k);
        FillStep(f, n, refs[..], occs[..], cidx, k);
        var lit := cdb[p];
        ghost var refs0, occs0 := refs[..], occs[..];
        assert Ref(lit) < 2 * n == refs.Length;
        var o := refs[Ref(lit)];
        occs[o] := 64 * cidx + len;
        refs[Ref(lit)] := o + 1;
        assert occs[..] == occs0[o := Pack(cidx, |f[cidx]|)] && refs[..] == refs0[Ref(lit) := o + 1];
        p := p + 1;
      }
      ReadStack(f, n, cdb, starts, cidx, p - starts[cidx]);
      FilledEnd(f, n, refs[..], occs[..], cidx);
      cidx := cidx + 1;
    }
  }

  lemma FilledSizes(f: Formula, n: nat, refs: seq<int>, occs: seq<int>, i: nat)
    requires Filled(f, n, refs, occs, i)
    ensures |refs| == 2 * n && |occs| == Size(f, n)
  {}

  /** The length of the clause at p, counted no further than MAX_LEN. */
  method CappedLength(cdb: seq<int>, p: int, n: nat, ghost f: Formula, ghost starts: seq<int>, ghost i: nat)
    returns (len: nat)
    requires Stack(f, n, cdb, starts) && i < |f| && p == starts[i]
    ensures len == Capped(|f[i]|)
  {
    hide Stack;
    len := 0;
    ReadStack(f, n, cdb, starts, i, 0);
    while len < MAX_LEN && cdb[p + len] != 0
      invariant 0 <= len <= |f[i]| && len <= MAX_LEN && p + |f[i]| < |cdb|
    {
      ReadStack(f, n, cdb, starts, i, len);
      len := len + 1;
    }
    ReadStack(f, n, cdb, starts, i, len);
  }

  /** The first lists are rewound, the references of the others still at their ends. */
  ghost predicate Rewound(f: Formula, n: nat, refs: seq<int>, occs: seq<int>, upto: int) {
    && |refs| == 2 * n && |occs| == Size(f, n)
    && forall l :: IsLit(l, n) ==> RewoundTo(f, n, refs, occs, l, if Slot(l) < upto then 0 else |Occs(f, l)|)
  }

  ghost predicate RewoundTo(f: Formula, n: nat, refs: seq<int>, occs: seq<int>, lit: int, offset: int)
    requires |refs| == 2 * n && IsLit(lit, n)
  {
    Block(f, n, refs, occs, lit, Start(f, lit) + offset, Occs(f, lit))
  }

  lemma RefBound(lit: int, n: nat)
    requires IsLit(lit, n)
    ensures Ref(lit) < 2 * n
  {}

  lemma RewindStep(f: Formula, n: nat, refs: seq<int>, occs: seq<int>, lit: int)
    requires IsLit(lit, n) && Rewound(f, n, refs, occs, Slot(lit))
    ensures Rewound(f, n, refs[Ref(lit) := refs[Ref(lit)] - |Occs(f, lit)|], occs, Slot(lit) + 1)
  {
    hide Base;
    var refs' := refs[Ref(lit) := refs[Ref(lit)] - |Occs(f, lit)|];
    forall l | IsLit(l, n) ensures RewoundTo(f, n, refs', occs, l, if Slot(l) < Slot(lit) + 1 then 0 else |Occs(f, l)|) {
      assert RewoundTo(f, n, refs, occs, l, if Slot(l) < Slot(lit) then 0 else |Occs(f, l)|);
      assert l != lit ==> Ref(l) != Ref(lit);
    }
  }

  method RewindLiteral(lit: int, cnt: int, n: nat, refs: array<int>, occs: array<int>, ghost f: Formula)
    requires refs.Length == 2 * n && refs != occs && IsLit(lit, n) && cnt == |Occs(f, lit)|
    requires Rewound(f, n, refs[..], occs[..], Slot(lit))
    modifies refs
    ensures Rewound(f, n, refs[..], occs[..], Slot(lit) + 1)
  {
    hide *;
    var r := Ref(lit);
    RefBound(lit, n);
    ghost var was := refs[..];
    RewindStep(f, n, was, occs[..], lit);
    refs[r] := refs[r] - cnt;
    assert refs[..] == was[r := was[r] - cnt];
  }

  /** Last pass: moves every reference back to the start of its list. */
  method RewindReferences(count: array<int>, n: nat, refs: array<int>, occs: array<int>, ghost f: Formula)
    requires OccsCounted(f, n, count[..], |f|) && Filled(f, n, refs[..], occs[..], |f|)
    requires refs != occs && refs != count
    modifies refs
    ensures Indexed(f, n, refs[..], occs[..])
  {
    hide Rewound, Filled, OccsCounted, Block, Indexed, Base, Occs, Start;
    RewindStart(f, n, refs[..], occs[..], count[..]);
    var idx := 1;
    while idx < n
      invariant 1 <= idx && (if n == 0 then idx == 1 else idx <= n) && refs.Length == 2 * n
      invariant Rewound(f, n, refs[..], occs[..], 2 * idx - 1)
    {
      CountOf(f, n, count[..], idx);
      CountOf(f, n, count[..], -idx);
      RewindLiteral(idx, count[n + idx], n, refs, occs, f);
      RewindLiteral(-idx, count[n - idx], n, refs, occs, f);
      idx := idx + 1;
    }
    RewoundAll(f, n, refs[..], occs[..], 2 * idx - 1);
  }

  lemma RewindStart(f: Formula, n: nat, refs: seq<int>, occs: seq<int>, count: seq<int>)
    requires Filled(f, n, refs, occs, |f|) && OccsCounted(f, n, count, |f|)
    ensures |refs| == |count| == 2 * n && Rewound(f, n, refs, occs, 1)
  {
    hide Block, Base;
  }

  lemma RewoundAll(f: Formula, n: nat, refs: seq<int>, occs: seq<int>, upto: int)
    requires Rewound(f, n, refs, occs, upto) && upto >= 2 * n - 1
    ensures Indexed(f, n, refs, occs)
  {
    hide Block;
    forall l | IsLit(l, n) ensures Block(f, n, refs, occs, l, Start(f, l), Occs(f, l)) {
      assert RewoundTo(f, n, refs, occs, l, if Slot(l) < upto then 0 else |Occs(f, l)|);
    }
  }

  /** The offsets of the clauses on the stack. */
  method ClauseOffsets(cdb: seq<int>, nclauses: nat, n: nat, ghost f: Formula, ghost starts: seq<int>)
    returns (lits: array<int>)
    requires Stack(f, n, cdb, starts) && nclauses == |f|
    ensures fresh(lits) && lits[..] == starts[..|starts| - 1]
  {
    hide Stack;
    StackSize(f, n, cdb, starts);
    lits := new int[nclauses];
    var p, cidx := 0, 0;
    while cidx < nclauses
      invariant 0 <= cidx <= nclauses == lits.Length && p == starts[cidx]
      invariant lits[..cidx] == starts[..cidx]
    {
      lits[cidx] := p;
      ReadStack(f, n, cdb, starts, cidx, 0);
      while cdb[p] != 0
        invariant starts[cidx] <= p <= starts[cidx] + |f[cidx]| < |cdb|
        invariant lits[..cidx + 1] == starts[..cidx + 1]
        decreases |cdb| - p
      {
        ReadStack(f, n, cdb, starts, cidx, p - starts[cidx]);
        p := p + 1;
      }
      ReadStack(f, n, cdb, starts, cidx, p - starts[cidx]);
      p, cidx := p + 1, cidx + 1;
    }
  }

  /** The number of clauses and the length of the longest. */
  method Measure(cdb: seq<int>, n: nat, ghost f: Formula, ghost starts: seq<int>)
    returns (nclauses: nat, maxlen: nat)
    requires Stack(f, n, cdb, starts)
    ensures nclauses == |f| && forall i :: 0 <= i < |f| ==> |f[i]| <= maxlen
    ensures maxlen > 0 ==> exists i :: 0 <= i < |f| && |f[i]| == maxlen
  {
    hide Stack;
    StackSize(f, n, cdb, starts);
    StartsMonotone(f, n, cdb, starts);
    nclauses, maxlen := 0, 0;
    var p := 0;
    while p < |cdb|
      invariant 0 <= nclauses <= |f| && p == starts[nclauses]
      invariant forall i :: 0 <= i < nclauses ==> |f[i]| <= maxlen
      invariant maxlen > 0 ==> exists i :: 0 <= i < nclauses && |f[i]| == maxlen
    {
      var q := p;
      ReadStack(f, n, cdb, starts, nclauses, 0);
      while cdb[q] != 0
        invariant p <= q <= p + |f[nclauses]| < |cdb|
        decreases |cdb| - q
      {
        ReadStack(f, n, cdb, starts, nclauses, q - p);
        q := q + 1;
      }
      ReadStack(f, n, cdb, starts, nclauses, q - p);
      var len := q - p;
      if len > maxlen { maxlen := len; }
      nclauses, p := nclauses + 1, q + 1;
    }
  }

  lemma StartsMonotone(f: Formula, n: nat, cdb: seq<int>, starts: seq<int>)
    requires Stack(f, n, cdb, starts)
    ensures |starts| == |f| + 1 && forall i :: 0 <= i < |f| ==> starts[i] < |cdb|
  {
    forall i | 0 <= i < |f| ensures starts[i] < |cdb| { StartsEnd(cdb, starts, i); }
  }

  lemma AllPlaced(f: Formula, n: nat, refs: seq<int>, occs: seq<int>)
    requires Placed(f, n, refs, occs, 2 * n - 1)
    ensures Filled(f, n, refs, occs, 0)
  {
    hide Block;
  }

  /** The four passes together. */
  method Connect(cdb: seq<int>, lits: array<int>, n: nat, ghost f: Formula, ghost starts: seq<int>)
    returns (refs: array<int>, occs: array<int>)
    requires Stack(f, n, cdb, starts) && lits[..] == starts[..|starts| - 1]
    ensures fresh(refs) && fresh(occs) && refs != occs
    ensures Indexed(f, n, refs[..], occs[..])
  {
    var count := CountOccurrences(cdb, lits, n, f, starts);
    refs, occs := PlaceLists(count, n, f);
    assert Filled(f, n, refs[..], occs[..], 0) by { AllPlaced(f, n, refs[..], occs[..]); }
    FillLists(cdb, lits, n, refs, occs, f, starts);
    RewindReferences(count, n, refs, occs, f);
  }

  /** What reading the k-th cell of a list finds. */
  lemma ReadOcc(f: Formula, n: nat, refs: seq<int>, occs: seq<int>, lit: int, k: nat)
    requires Indexed(f, n, refs, occs) && IsLit(lit, n) && k <= |Occs(f, lit)|
    ensures |refs| == 2 * n && Ref(lit) < |refs|
    ensures 0 <= refs[Ref(lit)] + k < |occs|
    ensures occs[refs[Ref(lit)] + k] < 0 <==> k == |Occs(f, lit)|
    ensures k < |Occs(f, lit)| ==>
              var cell := occs[refs[Ref(lit)] + k];
              cell == Occs(f, lit)[k] && IsOccurrence(f, lit, |f|, cell)
  {
    hide Indexed, Base, Start, OccList, Block;
    var list := Occs(f, lit);
    ListInPlace(f, n, refs, occs, lit);
    OccListExact(f, lit, |f|);
    hide Occs;
    ReadList(occs, refs[Ref(lit)], list, k);
    if k < |list| { assert IsOccurrence(f, lit, |f|, list[k]); }
  }

  lemma ListInPlace(f: Formula, n: nat, refs: seq<int>, occs: seq<int>, lit: int)
    requires Indexed(f, n, refs, occs) && IsLit(lit, n)
    ensures |refs| == 2 * n && Ref(lit) < |refs|
    ensures var b, list := refs[Ref(lit)], Occs(f, lit);
            0 <= b && b + |list| < |occs| && occs[b..b + |list|] == list && occs[b + |list|] == -1
  {
    hide Base, OccList;
    assert Block(f, n, refs, occs, lit, Start(f, lit), Occs(f, lit));
  }

  lemma ReadList(occs: seq<int>, b: nat, list: seq<int>, k: nat)
    requires k <= |list| && b + |list| < |occs| && occs[b..b + |list|] == list && occs[b + |list|] == -1
    ensures k < |list| ==> occs[b + k] == list[k]
    ensures k == |list| ==> occs[b + k] == -1
  {
    if k < |list| { assert occs[b..b + |list|][k] == occs[b + k]; }
  }
}
