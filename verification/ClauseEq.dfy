/** Equality and hashing of clauses as sets of literals. */
module ClauseEq {

  ghost predicate NoRepeats(c: seq<int>) {
    forall i, j :: 0 <= i < j < |c| ==> c[i] != c[j]
  }

  ghost predicate SameSet(c: seq<int>, d: seq<int>) {
    forall l :: l in c <==> l in d
  }

  /** Position of a literal from a given one on, or the size. */
  function Find(c: seq<int>, from: nat, lit: int): (p: nat)
    requires from <= |c|
    ensures from <= p <= |c| && (p < |c| ==> c[p] == lit)
    ensures forall i :: from <= i < p ==> c[i] != lit
    decreases |c| - from
  {
    if from == |c| || c[from] == lit then from else Find(c, from + 1, lit)
  }

  /** The scan from position li of the left and ri of the right clause. */
  predicate Scan(left: seq<int>, right: seq<int>, li: nat, ri: nat)
    requires |left| == |right| && ri <= li <= |left|
    decreases |left| - li
  {
    if li == |left| then true
    else if left[li] == right[ri] then Scan(left, right, li + 1, ri + 1)
    else Find(right, ri + 1, left[li]) < |right| && Scan(left, right, li + 1, ri)
  }

  /** Whether two clauses are the same set; right for all right-hand clauses exactly
      if the left one repeats no literal (`ScanRightExactly`). The index into the right clause never leaves it. */
  method AreClausesEqual(left: seq<int>, right: seq<int>) returns (eq: bool)
    ensures eq <==> |left| == |right| && Scan(left, right, 0, 0)
    ensures NoRepeats(left) ==> (eq <==> |left| == |right| && SameSet(left, right))
    ensures NoRepeats(left) && NoRepeats(right) ==> (eq <==> SameSet(left, right))
    ensures left == right ==> eq
  {
    if |left| != |right| {
      if NoRepeats(left) && NoRepeats(right) && SameSet(left, right) { SameSetSize(left, right); }
      return false;
    }
    if NoRepeats(left) { ScanExact(left, right, 0, 0); }
    if left == right { ScanSame(left, 0); }
    var ri := 0;
    for li := 0 to |left|
      invariant ri <= li && Scan(left, right, 0, 0) == Scan(left, right, li, ri)
    {
      if left[li] == right[ri] {
        ri := ri + 1;
        continue;
      }
      if Find(right, ri + 1, left[li]) == |right| { return false; }
    }
    return true;
  }

  lemma {:induction false} ScanSame(c: seq<int>, i: nat)
    requires i <= |c|
    ensures Scan(c, c, i, i)
    decreases |c| - i
  {
    if i < |c| { ScanSame(c, i + 1); }
  }

  /** The scan is on its way: what the right index has passed is among the left literals read. */
  ghost predicate Passed(left: seq<int>, right: seq<int>, li: nat, ri: nat) {
    && ri <= li <= |left| == |right|
    && (forall k :: 0 <= k < ri ==> right[k] in left[..li])
    && (forall i :: 0 <= i < li ==> left[i] in right)
  }

  lemma {:induction false} ScanExact(left: seq<int>, right: seq<int>, li: nat, ri: nat)
    requires NoRepeats(left) && Passed(left, right, li, ri)
    ensures Scan(left, right, li, ri) <==> SameSet(left, right)
    decreases |left| - li
  {
    if li == |left| {
      Covers(left, right);
    } else {
      assert left[..li + 1] == left[..li] + [left[li]];
      if left[li] == right[ri] {
        ScanExact(left, right, li + 1, ri + 1);
      } else if Find(right, ri + 1, left[li]) < |right| {
        ScanExact(left, right, li + 1, ri);
      } else {
        assert left[li] !in left[..li];
        assert left[li] !in right;
        assert left[li] in left;
      }
    }
  }

  function Without(c: seq<int>, k: nat): seq<int>
    requires k < |c|
  {
    c[..k] + c[k + 1..]
  }

  lemma WithoutHas(c: seq<int>, k: nat)
    requires k < |c|
    ensures forall l :: l in c <==> l in Without(c, k) || l == c[k]
    ensures NoRepeats(c) ==> NoRepeats(Without(c, k)) && c[k] !in Without(c, k)
  {
    forall l | l in c && l != c[k] ensures l in Without(c, k) {
      var i :| 0 <= i < |c| && c[i] == l;
      assert Without(c, k)[if i < k then i else i - 1] == l;
    }
  }

  /** As many different literals, all of them in the other clause: the same set. */
  lemma {:induction false} Covers(left: seq<int>, right: seq<int>)
    requires NoRepeats(left) && |left| == |right| && forall i :: 0 <= i < |left| ==> left[i] in right
    ensures SameSet(left, right)
    decreases |left|
  {
    if left != [] {
      var k :| 0 <= k < |right| && right[k] == left[0];
      var l, r := Without(left, 0), Without(right, k);
      WithoutHas(left, 0);
      WithoutHas(right, k);
      forall i | 0 <= i < |l| ensures l[i] in r { assert l[i] in l && l[i] in left; }
      Covers(l, r);
    }
  }

  lemma {:induction false} NotLonger(c: seq<int>, d: seq<int>)
    requires NoRepeats(c) && forall l :: l in c ==> l in d
    ensures |c| <= |d|
    decreases |c|
  {
    if c != [] {
      assert c[0] in c;
      var k :| 0 <= k < |d| && d[k] == c[0];
      WithoutHas(c, 0);
      WithoutHas(d, k);
      NotLonger(Without(c, 0), Without(d, k));
    }
  }

  lemma SameSetSize(c: seq<int>, d: seq<int>)
    requires NoRepeats(c) && NoRepeats(d) && SameSet(c, d)
    ensures |c| == |d|
  {
    NotLonger(c, d);
    NotLonger(d, c);
  }

  /** A literal above all others. */
  function Above(c: seq<int>): (y: int)
    ensures forall l :: l in c ==> l < y
  {
    if c == [] then 0 else
      assert forall l :: l in c ==> l == c[0] || l in c[1..];
      var y := Above(c[1..]);
      if c[0] < y then y else c[0] + 1
  }

  /** While the first literal on the right is not met, the rest may be read again and again. */
  lemma {:induction false} ScanStays(left: seq<int>, right: seq<int>, li: nat)
    requires 0 < |left| == |right| && li <= |left| && right[0] !in left
    requires forall l :: l in left ==> l in right[1..]
    ensures Scan(left, right, li, 0)
    decreases |left| - li
  {
    if li < |left| {
      assert left[li] in left;
      var k :| 0 <= k < |right| - 1 && right[1..][k] == left[li];
      assert right[1 + k] == left[li];
      ScanStays(left, right, li + 1);
    }
  }

  /** A literal repeated on the left leaves room for a foreign one on the right. */
  lemma RepeatsFool(left: seq<int>) returns (right: seq<int>)
    requires !NoRepeats(left)
    ensures |right| == |left| && Scan(left, right, 0, 0) && !SameSet(left, right)
  {
    var i, j :| 0 <= i < j < |left| && left[i] == left[j];
    var y, rest := Above(left), Without(left, i);
    right := [y] + rest;
    WithoutHas(left, i);
    assert rest[j - 1] == left[j];
    assert right[1..] == rest;
    ScanStays(left, right, 0);
    assert y in right && y !in left;
  }

  /** The scan is right for every clause on the right exactly if the left one repeats no literal. */
  lemma ScanRightExactly(left: seq<int>)
    ensures NoRepeats(left) <==> forall right :: |right| == |left| ==> (Scan(left, right, 0, 0) <==> SameSet(left, right))
  {
    if NoRepeats(left) {
      forall right | |right| == |left| ensures Scan(left, right, 0, 0) <==> SameSet(left, right) {
        ScanExact(left, right, 0, 0);
      }
    } else {
      var right := RepeatsFool(left);
    }
  }

  // ----- hashing ----------------------------------------------------------------------

  type Word = bv64

  /** Shift of a signed word to the right. */
  function ShiftRight(x: Word, k: bv7): Word
    requires k < 64
  {
    if x >> 63 == 1 then (x >> k) | !(0xffff_ffff_ffff_ffff >> k) else x >> k
  }

  function Rot(x: Word, k: bv7): Word
    requires k < 32
  {
    (x << k) | ShiftRight(x, 32 - k)
  }

  /** The three words that are mixed. */
  datatype Words = Words(s1: Word, s2: Word, key: Word)

  const SEED: Word := 0xdead_beef

  function Stir(x: Word, y: Word, k: bv7): Word
    requires k < 32
  {
    Minus(Mix(x, y), Rot(y, k))
  }

  function Stages(key: Word): Words {
    var s1, s2 := SEED, SEED;
    var s2 := Stir(s2, s1, 14);
    var key := Stir(key, s2, 11);
    var s1 := Stir(s1, key, 25);
    var s2 := Stir(s2, s1, 16);
    var key := Stir(key, s2, 4);
    var s1 := Stir(s1, key, 14);
    Words(s1, Stir(s2, s1, 24), key)
  }

  function Lookup3(key: Word): Word { Stages(key).s2 }

  /** Takes back one step. */
  function Unstir(z: Word, y: Word, k: bv7): Word
    requires k < 32
  {
    Mix(Plus(z, Rot(y, k)), y)
  }

  /** Takes back all steps, the last first. */
  function Unwound(w: Words): Words {
    var a := w.(s2 := Unstir(w.s2, w.s1, 24));
    var b := a.(s1 := Unstir(a.s1, a.key, 14));
    var c := b.(key := Unstir(b.key, b.s2, 4));
    var d := c.(s2 := Unstir(c.s2, c.s1, 16));
    var e := d.(s1 := Unstir(d.s1, d.key, 25));
    var g := e.(key := Unstir(e.key, e.s2, 11));
    g.(s2 := Unstir(g.s2, g.s1, 14))
  }

  lemma StirBack(x: Word, y: Word, k: bv7)
    requires k < 32
    ensures Unstir(Stir(x, y, k), y, k) == x
  {
    hide Rot, Mix, Minus, Plus;
    Cancels(Mix(x, y), Rot(y, k));
    XorTwice(x, y);
  }

  function Minus(a: Word, b: Word): Word { a - b }

  function Plus(a: Word, b: Word): Word { a + b }

  lemma Cancels(a: Word, b: Word)
    ensures Plus(Minus(a, b), b) == a
  {
    assert Plus(a - b, b) == a - b + b;
  }

  lemma XorTwice(a: Word, b: Word)
    ensures Mix(Mix(a, b), b) == a
  {}

  /** Mixing loses nothing: from the three words at the end, the key and both seeds come back. */
  lemma StagesUnwind(key: Word)
    ensures Unwound(Stages(key)) == Words(SEED, SEED, key)
  {
    hide Stir, Unstir;
    var s2 := Stir(SEED, SEED, 14);
    var k1 := Stir(key, s2, 11);
    var s1 := Stir(SEED, k1, 25);
    var t2 := Stir(s2, s1, 16);
    var k2 := Stir(k1, t2, 4);
    var t1 := Stir(s1, k2, 14);
    StirBack(t2, t1, 24);
    StirBack(s1, k2, 14);
    StirBack(k1, t2, 4);
    StirBack(s2, s1, 16);
    StirBack(SEED, k1, 25);
    StirBack(key, s2, 11);
    StirBack(SEED, SEED, 14);
  }

  /** A known hash, that of literal 1. */
  lemma HashOfOne()
    ensures LitHash(1) == 0x7904_b152_0ef0_d02c
  {
    hide Stir;
    assert ToWord(1) == 1;
    HashOfOneSteps();
  }

  lemma HashOfOneSteps()
    ensures Stir(0xdead_beef, 0xdead_beef, 14) == 0xffff_c854_9044_0855
    ensures Stir(0x1, 0xffff_c854_9044_0855, 11) == 0xffff_c854_9201_5bd2
    ensures Stir(0xdead_beef, 0xffff_c854_9201_5bd2, 25) == 0xffff_c89c_9f88_e286
    ensures Stir(0xffff_c854_9044_0855, 0xffff_c89c_9f88_e286, 16) == 0xc8_252e_4b4b
    ensures Stir(0xffff_c854_9201_5bd2, 0xc8_252e_4b4b, 4) == 0xffff_bc1a_644a_53e7
    ensures Stir(0xffff_c89c_9f88_e286, 0xffff_bc1a_644a_53e7, 14) == 0x7486_fbc2_d84f
    ensures Stir(0xc8_252e_4b4b, 0x7486_fbc2_d84f, 24) == 0x7904_b152_0ef0_d02c
  {}

  /** And that of literal -1, which is the word of ones. */
  lemma HashOfMinusOne()
    ensures Lookup3(0xffff_ffff_ffff_ffff) == 0x7d6c_ed61_b974_a182
  {
    hide Stir;
    HashOfMinusOneSteps();
  }

  lemma HashOfMinusOneSteps()
    ensures Stir(0xdead_beef, 0xdead_beef, 14) == 0xffff_c854_9044_0855
    ensures Stir(0xffff_ffff_ffff_ffff, 0xffff_c854_9044_0855, 11) == 0x37ab_7179_4b28
    ensures Stir(0xdead_beef, 0x37ab_7179_4b28, 25) == 0xa91d_44ac_58f2_0331
    ensures Stir(0xffff_c854_9044_0855, 0xa91d_44ac_58f2_0331, 16) == 0x56e2_92f9_80f8_b272
    ensures Stir(0x37ab_7179_4b28, 0x56e2_92f9_80f8_b272, 4) == 0xe8b9_75b5_81d6_c9a2
    ensures Stir(0xa91d_44ac_58f2_0331, 0xe8b9_75b5_81d6_c9a2, 14) == 0x41a4_3699_d9b6_ea1e
    ensures Stir(0x56e2_92f9_80f8_b272, 0x41a4_3699_d9b6_ea1e, 24) == 0x7d6c_ed61_b974_a182
  {}

  /** A literal as a sign-extended word. */
  function ToWord(lit: int): Word {
    (lit % 0x1_0000_0000_0000_0000) as Word
  }

  function LitHash(lit: int): Word {
    Lookup3(ToWord(lit))
  }

  function Fold(c: seq<int>): Word {
    if c == [] then 0 else Mix(Fold(c[..|c| - 1]), LitHash(c[|c| - 1]))
  }

  function Mix(a: Word, b: Word): Word { a ^ b }

  lemma MixZero(a: Word)
    ensures Mix(0, a) == a
  {}

  lemma MixSwap(a: Word, b: Word, c: Word)
    ensures Mix(Mix(a, b), c) == Mix(Mix(a, c), b)
  {
    hide Mix;
    MixAssociates(a, b, c);
    MixCommutes(b, c);
    MixAssociates(a, c, b);
  }

  lemma MixAssociates(a: Word, b: Word, c: Word)
    ensures Mix(Mix(a, b), c) == Mix(a, Mix(b, c))
  {}

  lemma MixCommutes(a: Word, b: Word)
    ensures Mix(a, b) == Mix(b, a)
  {}

  method HashClause(c: seq<int>) returns (hash: Word)
    ensures hash == Fold(c)
  {
    hide LitHash, Mix;
    if |c| == 0 { return 0; }
    hash := LitHash(c[0]);
    assert c[..1] == [c[0]];
    MixZero(hash);
    for i := 1 to |c|
      invariant hash == Fold(c[..i])
    {
      assert c[..i + 1][..i] == c[..i];
      hash := Mix(hash, LitHash(c[i]));
    }
    assert c[..|c|] == c;
  }

  lemma {:induction false} FoldWithout(c: seq<int>, k: nat)
    requires k < |c|
    ensures Fold(c) == Mix(Fold(Without(c, k)), LitHash(c[k]))
    decreases |c|
  {
    hide LitHash, Mix;
    var last := |c| - 1;
    if k == last {
      assert Without(c, k) == c[..last];
    } else {
      FoldWithout(c[..last], k);
      var w := Without(c, k);
      assert w[..|w| - 1] == Without(c[..last], k) && w[|w| - 1] == c[last];
      MixSwap(Fold(Without(c[..last], k)), LitHash(c[k]), LitHash(c[last]));
    }
  }

  /** The order of the literals does not matter. */
  lemma {:induction false} HashUnordered(c: seq<int>, d: seq<int>)
    requires multiset(c) == multiset(d)
    ensures Fold(c) == Fold(d)
    decreases |c|
  {
    hide LitHash, Mix;
    if c == [] {
      assert |multiset(d)| == |d|;
    } else {
      assert c[0] in multiset(d);
      var k :| 0 <= k < |d| && d[k] == c[0];
      FoldWithout(c, 0);
      FoldWithout(d, k);
      MultisetWithout(c, 0);
      MultisetWithout(d, k);
      HashUnordered(Without(c, 0), Without(d, k));
    }
  }

  lemma MultisetWithout(c: seq<int>, k: nat)
    requires k < |c|
    ensures multiset(Without(c, k)) == multiset(c) - multiset{c[k]}
  {
    assert c == c[..k] + [c[k]] + c[k + 1..];
  }

  /** Clauses without repeated literals that are equal as sets have equal hashes. */
  lemma {:induction false} EqualHashes(c: seq<int>, d: seq<int>)
    requires NoRepeats(c) && NoRepeats(d) && SameSet(c, d)
    ensures Fold(c) == Fold(d)
    decreases |c|
  {
    hide LitHash, Mix;
    SameSetSize(c, d);
    if c != [] {
      assert c[0] in c;
      var k :| 0 <= k < |d| && d[k] == c[0];
      WithoutHas(c, 0);
      WithoutHas(d, k);
      FoldWithout(c, 0);
      FoldWithout(d, k);
      EqualHashes(Without(c, 0), Without(d, k));
    }
  }
}
