/** Owners of blocks of work: local claims by compare-and-swap, and a table that
    all ranks exchange by taking the maximum, one round after the other. */
module Claims {
  import opened Finite

  const MAX_WORKERS := 32767

  /** The lower the index of a worker, the higher its code; 0 means free. */
  function Code(index: nat): (c: int)
    requires index < MAX_WORKERS
    ensures 1 <= c <= 0x7fff
  {
    MAX_WORKERS - index
  }

  lemma CodeOrder(i: nat, j: nat)
    requires i < MAX_WORKERS && j < MAX_WORKERS
    ensures Code(i) < Code(j) <==> j < i
  {}

  // ----- one block on all ranks --------------------------------------------------

  datatype Phase = Working | Waiting | Merging(current: int)

  /** One rank's view of a block. */
  datatype Rank = Rank(
    cell: int,             // the owner in its table
    won: int,              // the code that won the block here, 0 if none
    snaps: seq<int>,       // what it contributed to each round
    merged: nat,           // how many rounds it has merged
    phase: Phase)

  type Block = seq<Rank>

  predicate Contributed(b: Block, r: nat) {
    forall i :: 0 <= i < |b| ==> r < |b[i].snaps|
  }

  /** The result of the reduction of round r over the first n ranks. */
  function Reduced(b: Block, r: nat, n: nat): (m: int)
    requires n <= |b| && Contributed(b, r)
    ensures forall i :: 0 <= i < n ==> b[i].snaps[r] <= m
    ensures m == 0 || exists i :: 0 <= i < n && m == b[i].snaps[r]
    ensures m >= 0
  {
    if n == 0 then 0 else
      var m := Reduced(b, r, n - 1);
      if b[n - 1].snaps[r] > m then b[n - 1].snaps[r] else m
  }

  // ----- the steps: each reads or changes a cell once ------------------------------

  datatype Event =
    | Claim(i: nat, index: nat)     // compare-and-swap from 0
    | Snap(i: nat)                  // the rank contributes to its next round
    | Load(i: nat)                  // the merge reads the cell
    | Retry(i: nat, fails: bool)    // the merge compares and swaps, possibly failing for no reason

  ghost predicate Enabled(b: Block, e: Event) {
    match e
    case Claim(i, index) => i < |b| && index < MAX_WORKERS
    case Snap(i) => i < |b| && b[i].phase.Working?
    case Load(i) => i < |b| && b[i].phase.Waiting? && Contributed(b, b[i].merged)
    case Retry(i, _) => i < |b| && b[i].phase.Merging? && Contributed(b, b[i].merged)
  }

  ghost function Next(b: Block, e: Event): (t: Block)
    requires Enabled(b, e)
    ensures |t| == |b|
  {
    match e
    case Claim(i, index) =>
      if b[i].cell == 0 then b[i := b[i].(cell := Code(index), won := Code(index))] else b
    case Snap(i) => b[i := b[i].(snaps := b[i].snaps + [b[i].cell], phase := Waiting)]
    case Load(i) => b[i := b[i].(phase := Merging(b[i].cell))]
    case Retry(i, fails) =>
      var in_ := Reduced(b, b[i].merged, |b|);
      if in_ <= b[i].phase.current then b[i := b[i].(merged := b[i].merged + 1, phase := Working)]
      else if fails || b[i].cell != b[i].phase.current then b[i := b[i].(phase := Merging(b[i].cell))]
      else b[i := b[i].(cell := in_, merged := b[i].merged + 1, phase := Working)]
  }

  ghost function Start(ranks: nat): Block {
    seq(ranks, _ => Rank(0, 0, [], 0, Working))
  }

  // ----- what every step keeps --------------------------------------------------------

  /** Some rank won the block with this code. */
  ghost predicate Won(b: Block, code: int) {
    code == 0 || exists i :: 0 <= i < |b| && code == b[i].won
  }

  ghost predicate RankOK(b: Block, i: nat)
    requires i < |b|
  {
    var k := b[i];
    && 0 <= k.won <= k.cell && (k.cell == 0 ==> k.won == 0) && Won(b, k.cell)
    && |k.snaps| == k.merged + (if k.phase.Working? then 0 else 1)
    && (k.merged > 0 ==> Contributed(b, k.merged - 1))
    && (k.phase.Merging? ==> 0 <= k.phase.current <= k.cell)
    && (forall r :: 0 <= r < |k.snaps| ==> 0 <= k.snaps[r] <= k.cell && Won(b, k.snaps[r]))
  }

  /** A rank that has merged a round holds at least its result; and after a round
      in which the block was claimed, it contributes at least what was won here. */
  ghost predicate Caught(b: Block, i: nat, r: nat)
    requires i < |b| && Contributed(b, r)
  {
    && (r < b[i].merged ==> b[i].cell >= Reduced(b, r, |b|))
    && (Reduced(b, r, |b|) > 0 && r + 1 < |b[i].snaps| ==> b[i].snaps[r + 1] >= b[i].won)
  }

  ghost predicate Sound(b: Block) {
    && (forall i :: 0 <= i < |b| ==> RankOK(b, i))
    && (forall i, r :: 0 <= i < |b| && 0 <= r && Contributed(b, r) ==> Caught(b, i, r))
  }

  lemma StartSound(ranks: nat)
    ensures Sound(Start(ranks))
  {}

  /** Adding contributions of later rounds changes no earlier result. */
  lemma {:induction false} ReducedSame(b: Block, t: Block, r: nat, n: nat)
    requires |b| == |t| && n <= |b| && Contributed(b, r) && Contributed(t, r)
    requires forall i :: 0 <= i < n ==> b[i].snaps[r] == t[i].snaps[r]
    ensures Reduced(b, r, n) == Reduced(t, r, n)
  {
    if n > 0 { ReducedSame(b, t, r, n - 1); }
  }

  lemma ContributedSame(b: Block, t: Block, r: nat)
    requires |b| == |t| && forall i :: 0 <= i < |b| ==> b[i].snaps == t[i].snaps
    ensures Contributed(b, r) <==> Contributed(t, r)
    ensures Contributed(b, r) ==> Reduced(b, r, |b|) == Reduced(t, r, |t|)
  {
    if Contributed(t, r) {
      forall i | 0 <= i < |b| ensures r < |b[i].snaps| { assert r < |t[i].snaps|; }
    }
    if Contributed(b, r) {
      forall i | 0 <= i < |b| ensures r < |t[i].snaps| { assert r < |b[i].snaps|; }
      ReducedSame(b, t, r, |b|);
    }
  }

  /** What a rank has merged stays contributed. */
  lemma ContributedKept(b: Block, t: Block, r: nat)
    requires |b| == |t| && Contributed(b, r) && forall i :: 0 <= i < |b| ==> |b[i].snaps| <= |t[i].snaps|
    ensures Contributed(t, r)
  {
    forall i | 0 <= i < |t| ensures r < |t[i].snaps| { assert r < |b[i].snaps|; }
  }

  /** A rank is as before up to its won code, its cell or its phase. */
  lemma RankKept(b: Block, t: Block, j: nat)
    requires |b| == |t| && j < |b| && RankOK(b, j) && t[j] == b[j]
    requires forall i :: 0 <= i < |b| ==> |b[i].snaps| <= |t[i].snaps| && (t[i].won == b[i].won || b[i].won == 0)
    ensures RankOK(t, j)
  {
    forall code | Won(b, code) ensures Won(t, code) { WonKept(b, t, code); }
    if b[j].merged > 0 { ContributedKept(b, t, b[j].merged - 1); }
  }

  lemma WonKept(b: Block, t: Block, code: int)
    requires |b| == |t| && Won(b, code) && forall i :: 0 <= i < |b| ==> t[i].won == b[i].won || b[i].won == 0
    ensures Won(t, code)
  {
    if code != 0 {
      var i :| 0 <= i < |b| && code == b[i].won;
      assert t[i].won == code;
    }
  }

  lemma ClaimSound(b: Block, i: nat, index: nat)
    requires Sound(b) && Enabled(b, Claim(i, index))
    ensures Sound(Next(b, Claim(i, index)))
  {
    var t := Next(b, Claim(i, index));
    if t != b {
      assert RankOK(b, i);
      forall j | 0 <= j < |t| ensures RankOK(t, j) {
        assert RankOK(b, j);
        if j != i {
          RankKept(b, t, j);
        } else {
          forall code | Won(b, code) ensures Won(t, code) { WonKept(b, t, code); }
          assert Won(t, t[i].won);
          if b[i].merged > 0 { ContributedKept(b, t, b[i].merged - 1); }
        }
      }
      forall j: nat, r: nat | j < |t| && Contributed(t, r) ensures Caught(t, j, r) {
        ContributedSame(b, t, r);
        assert Caught(b, j, r);
      }
    }
  }

  lemma SnapSound(b: Block, i: nat)
    requires Sound(b) && Enabled(b, Snap(i))
    ensures Sound(Next(b, Snap(i)))
  {
    var t := Next(b, Snap(i));
    assert RankOK(b, i);
    forall j | 0 <= j < |t| ensures RankOK(t, j) {
      assert RankOK(b, j);
      if j != i {
        RankKept(b, t, j);
      } else {
        forall code | Won(b, code) ensures Won(t, code) { WonKept(b, t, code); }
        if b[i].merged > 0 { ContributedKept(b, t, b[i].merged - 1); }
      }
    }
    forall j: nat, r: nat | j < |t| && Contributed(t, r) ensures Caught(t, j, r) {
      assert RankOK(b, j);
      MergedContributed(b, j, r);
      if Contributed(b, r) {
        ReducedSame(b, t, r, |b|);
        assert Caught(b, j, r);
      }
    }
  }

  lemma MergedContributed(b: Block, j: nat, r: nat)
    requires j < |b| && RankOK(b, j)
    ensures r < b[j].merged ==> Contributed(b, r)
  {
    if r < b[j].merged {
      forall i | 0 <= i < |b| ensures r < |b[i].snaps| { assert b[j].merged - 1 < |b[i].snaps|; }
    }
  }

  lemma LoadSound(b: Block, i: nat)
    requires Sound(b) && Enabled(b, Load(i))
    ensures Sound(Next(b, Load(i)))
  {
    assert RankOK(b, i);
    SameRest(b, Next(b, Load(i)), i);
  }

  /** Only the phase of one rank changes. */
  lemma SameRest(b: Block, t: Block, i: nat)
    requires Sound(b) && i < |b| && |t| == |b| && t == b[i := t[i]] && t[i] == b[i].(phase := t[i].phase)
    requires t[i].phase.Merging? && 0 <= t[i].phase.current <= b[i].cell && !b[i].phase.Working?
    ensures Sound(t)
  {
    forall j | 0 <= j < |t| ensures RankOK(t, j) {
      assert RankOK(b, j);
      if j != i {
        RankKept(b, t, j);
      } else {
        forall code | Won(b, code) ensures Won(t, code) { WonKept(b, t, code); }
        if b[i].merged > 0 { ContributedKept(b, t, b[i].merged - 1); }
      }
    }
    forall j: nat, r: nat | j < |t| && Contributed(t, r) ensures Caught(t, j, r) {
      ContributedSame(b, t, r);
      assert Caught(b, j, r);
    }
  }

  /** The result of a reduction is one of the codes that won. */
  lemma ReducedWon(b: Block, r: nat)
    requires Sound(b) && Contributed(b, r)
    ensures Won(b, Reduced(b, r, |b|))
  {
    var m := Reduced(b, r, |b|);
    if m != 0 {
      var i :| 0 <= i < |b| && m == b[i].snaps[r];
      assert RankOK(b, i);
    }
  }

  lemma RetrySound(b: Block, i: nat, fails: bool)
    requires Sound(b) && Enabled(b, Retry(i, fails))
    ensures Sound(Next(b, Retry(i, fails)))
  {
    var t, m := Next(b, Retry(i, fails)), Reduced(b, b[i].merged, |b|);
    assert RankOK(b, i);
    if t[i].phase.Merging? {
      SameRest(b, t, i);
    } else {
      MergeSound(b, t, i, m);
    }
  }

  lemma MergedRank(b: Block, t: Block, i: nat, m: int)
    requires i < |b| && |t| == |b| && RankOK(b, i) && !b[i].phase.Working? && Contributed(b, b[i].merged) && m >= 0 && Won(b, m)
    requires t == b[i := b[i].(cell := if m > b[i].cell then m else b[i].cell, merged := b[i].merged + 1, phase := Working)]
    ensures RankOK(t, i)
  {
    forall code | Won(b, code) ensures Won(t, code) { WonKept(b, t, code); }
    ContributedKept(b, t, b[i].merged);
  }

  /** A merge is over: the rank holds at least the result. */
  lemma MergeSound(b: Block, t: Block, i: nat, m: int)
    requires Sound(b) && i < |b| && |t| == |b| && !b[i].phase.Working? && Contributed(b, b[i].merged)
    requires m == Reduced(b, b[i].merged, |b|)
    requires t == b[i := b[i].(cell := if m > b[i].cell then m else b[i].cell, merged := b[i].merged + 1, phase := Working)]
    ensures Sound(t)
  {
    hide Reduced, Won, RankOK;
    ReducedWon(b, b[i].merged);
    MergedRank(b, t, i, m);
    forall j | 0 <= j < |t| ensures RankOK(t, j) {
      if j != i { RankKept(b, t, j); }
    }
    forall j: nat, r: nat | j < |t| && Contributed(t, r) ensures Caught(t, j, r) {
      ContributedSame(b, t, r);
      assert Caught(b, j, r);
    }
  }

  lemma NextSound(b: Block, e: Event)
    requires Sound(b) && Enabled(b, e)
    ensures Sound(Next(b, e))
  {
    match e
    case Claim(i, index) => ClaimSound(b, i, index);
    case Snap(i) => SnapSound(b, i);
    case Load(i) => LoadSound(b, i);
    case Retry(i, fails) => RetrySound(b, i, fails);
  }

  // ----- over every run -----------------------------------------------------------------

  ghost predicate Legal(b: Block, events: seq<Event>)
    decreases |events|
  {
    events == [] || (Enabled(b, events[0]) && Legal(Next(b, events[0]), events[1..]))
  }

  ghost function Run(b: Block, events: seq<Event>): (t: Block)
    requires Legal(b, events)
    ensures |t| == |b|
    decreases |events|
  {
    if events == [] then b else Run(Next(b, events[0]), events[1..])
  }

  /** The code of the lowest index that ever won the block on some rank. */
  ghost predicate Winner(b: Block, m: int) {
    m > 0 && (exists i :: 0 <= i < |b| && b[i].won == m) && forall i :: 0 <= i < |b| ==> b[i].won <= m
  }

  /** Every rank holds the winner. */
  ghost predicate Settled(b: Block, m: int) {
    Winner(b, m) && forall i :: 0 <= i < |b| ==> b[i].cell == m
  }

  /** Once the block was claimed in the result of round r and every rank has
      merged round r + 1, every rank holds the lowest index that ever won it. */
  lemma Settles(b: Block, r: nat)
    requires Sound(b) && |b| > 0 && Contributed(b, r) && Reduced(b, r, |b|) > 0
    requires forall i :: 0 <= i < |b| ==> b[i].merged > r + 1
    ensures exists m :: Settled(b, m)
  {
    assert RankOK(b, 0);
    assert Contributed(b, r + 1) by { forall i | 0 <= i < |b| ensures r + 1 < |b[i].snaps| { assert RankOK(b, i); } }
    var m := Reduced(b, r + 1, |b|);
    ReducedWon(b, r + 1);
    ReducedWon(b, r);
    forall i | 0 <= i < |b| ensures b[i].won <= m && b[i].cell >= m {
      assert RankOK(b, i) && Caught(b, i, r) && Caught(b, i, r + 1);
    }
    forall i | 0 <= i < |b| ensures b[i].cell == m {
      assert RankOK(b, i);
    }
    assert Settled(b, m);
  }

  lemma StaysSettled(b: Block, e: Event, m: int)
    requires Sound(b) && Settled(b, m) && Enabled(b, e)
    ensures Settled(Next(b, e), m)
  {
    var t := Next(b, e);
    if e.Retry? {
      ReducedWon(b, b[e.i].merged);
      assert RankOK(b, e.i);
    }
    var i :| 0 <= i < |b| && b[i].won == m;
    assert t[i].won == m;
  }

  /** From then on no step of any rank changes the owner. */
  lemma {:induction false} SettledForever(b: Block, m: int, events: seq<Event>)
    requires Sound(b) && Settled(b, m) && Legal(b, events)
    ensures Settled(Run(b, events), m)
    decreases |events|
  {
    if events != [] {
      NextSound(b, events[0]);
      StaysSettled(b, events[0], m);
      SettledForever(Next(b, events[0]), m, events[1..]);
    }
  }

  lemma {:induction false} RunSound(b: Block, events: seq<Event>)
    requires Sound(b) && Legal(b, events)
    ensures Sound(Run(b, events))
    decreases |events|
  {
    if events != [] {
      NextSound(b, events[0]);
      RunSound(Next(b, events[0]), events[1..]);
    }
  }

  /** Ownership stabilises in every interleaving of claims, contributions and merges. */
  lemma Stabilises(ranks: nat, events: seq<Event>, r: nat, later: seq<Event>)
    requires ranks > 0 && Legal(Start(ranks), events) && Legal(Run(Start(ranks), events), later)
    requires var b := Run(Start(ranks), events);
             Contributed(b, r) && Reduced(b, r, |b|) > 0 && forall i :: 0 <= i < |b| ==> b[i].merged > r + 1
    ensures exists m :: Settled(Run(Start(ranks), events), m) && Settled(Run(Run(Start(ranks), events), later), m)
  {
    var b := Run(Start(ranks), events);
    StartSound(ranks);
    RunSound(Start(ranks), events);
    Settles(b, r);
    var m :| Settled(b, m);
    SettledForever(b, m, later);
  }

  /** An owner's code never decreases. */
  lemma NeverDecreases(b: Block, e: Event, i: nat)
    requires Sound(b) && Enabled(b, e) && i < |b|
    ensures Next(b, e)[i].cell >= b[i].cell && (b[i].won != 0 ==> Next(b, e)[i].won == b[i].won)
  {
    assert RankOK(b, i);
  }

  // ----- the table of one process ----------------------------------------------------------

  /** How many entries of the first n are higher in `in_` than in `was`. */
  function Raised(was: seq<int>, in_: seq<int>, n: nat): nat
    requires n <= |was| == |in_|
  {
    if n == 0 then 0 else Raised(was, in_, n - 1) + if in_[n - 1] > was[n - 1] then 1 else 0
  }

  class PartClaims {
    const owner: array<int>

    ghost predicate Valid()
      reads owner
    {
      forall b :: 0 <= b < owner.Length ==> 0 <= owner[b] <= 0x7fff
    }

    constructor (blocks: nat)
      ensures Valid() && fresh(owner) && owner.Length == blocks && forall b :: 0 <= b < blocks ==> owner[b] == 0
    {
      owner := new int[blocks](_ => 0);
    }

    /** What other threads may do to the table at any time: owners only increase. */
    method Others()
      requires Valid()
      modifies owner
      ensures Valid() && forall b :: 0 <= b < owner.Length ==> owner[b] >= old(owner[b])
    {
      for b := 0 to owner.Length
        invariant Valid() && forall c :: 0 <= c < owner.Length ==> owner[c] >= old(owner[c])
      {
        var x: int :| owner[b] <= x <= 0x7fff;
        owner[b] := x;
      }
    }

    /** Claims a free block. True as well if the block already has this owner. */
    method TryClaim(block: nat, code: int) returns (ok: bool)
      requires Valid() && block < owner.Length && 1 <= code <= 0x7fff
      modifies owner
      ensures Valid() && (ok <==> owner[block] == code)
      ensures owner[block] == if old(owner[block]) == 0 then code else old(owner[block])
      ensures forall b :: 0 <= b < owner.Length && b != block ==> owner[b] == old(owner[b])
    {
      var expected := owner[block];
      if expected == 0 { owner[block] := code; }
      ok := expected == 0 || expected == code;
    }

    method Snapshot() returns (out: seq<int>)
      ensures out == owner[..]
    {
      out := [];
      for b := 0 to owner.Length
        invariant out == owner[..b]
      {
        out := out + [owner[b]];
      }
      assert owner[..owner.Length] == owner[..];
    }

    /** Raises every owner to at least the reduced one, whatever other threads do
        meanwhile; alone, to exactly the maximum, and counts the changes. */
    method MergeMax(in_: seq<int>, alone: bool) returns (changed: nat)
      requires Valid() && |in_| == owner.Length && forall b :: 0 <= b < |in_| ==> 0 <= in_[b] <= 0x7fff
      modifies owner
      ensures Valid() && forall b :: 0 <= b < |in_| ==> owner[b] >= Max(old(owner[b]), in_[b])
      ensures alone ==> forall b :: 0 <= b < |in_| ==> owner[b] == Max(old(owner[b]), in_[b])
      ensures alone ==> changed == Raised(old(owner[..]), in_, |in_|)
      ensures changed <= |in_|
    {
      changed := 0;
      for b := 0 to owner.Length
        invariant Valid() && forall c :: 0 <= c < owner.Length ==> owner[c] >= old(owner[c])
        invariant forall c :: 0 <= c < b ==> owner[c] >= in_[c]
        invariant alone ==> forall c :: 0 <= c < owner.Length ==> owner[c] == if c < b then Max(old(owner[c]), in_[c]) else old(owner[c])
        invariant alone ==> changed == Raised(old(owner[..]), in_, b)
        invariant changed <= b
      {
        if !alone { Others(); }
        var current := owner[b];
        while in_[b] > current
          invariant Valid() && current <= owner[b] && forall c :: 0 <= c < owner.Length ==> owner[c] >= old(owner[c])
          invariant forall c :: 0 <= c < b ==> owner[c] >= in_[c]
          invariant alone ==> current == owner[b] && forall c :: 0 <= c < owner.Length ==> owner[c] == if c < b then Max(old(owner[c]), in_[c]) else old(owner[c])
          decreases in_[b] - current
        {
          if !alone { Others(); }
          if owner[b] == current {
            owner[b] := in_[b];
            changed := changed + 1;
            break;
          }
          current := owner[b];
        }
      }
    }
  }
}
