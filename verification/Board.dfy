/** The board of decided candidates: write-once statuses, exchanged between
    processes by a maximum, and true of the formula throughout. */
module Board {
  import opened Cnf
  import opened Finite

  const UNKNOWN := 0
  const POSITIVE := 1
  const NEGATIVE := 2
  const FREE_VAR := 3
  const FREE := 0x7fff_ffff

  // ----- what a status means ------------------------------------------------------

  /** The literal is true in every model. */
  ghost predicate Backbone(f: Formula, lit: int) {
    Entails(f, lit)
  }

  /** The right final status of a variable, for a satisfiable formula. */
  ghost function Truth(f: Formula, v: int): (s: int)
    ensures POSITIVE <= s <= FREE_VAR
  {
    if Backbone(f, v) then POSITIVE else if Backbone(f, -v) then NEGATIVE else FREE_VAR
  }

  /** With a model there, a variable is not positive and negative at once, and a
      free variable has both values in models. */
  lemma TruthMeans(f: Formula, v: int)
    requires !Unsatisfiable(f) && v > 0
    ensures Truth(f, v) == POSITIVE <==> Backbone(f, v)
    ensures Truth(f, v) == NEGATIVE <==> Backbone(f, -v)
    ensures Truth(f, v) == FREE_VAR <==> (exists a :: Models(a, f) && Holds(a, v)) && (exists a :: Models(a, f) && Holds(a, -v))
  {
    var a :| Models(a, f);
    assert Holds(a, v) <==> !Holds(a, -v);
    if Truth(f, v) == FREE_VAR {
      var b :| Models(b, f) && !Holds(b, v);
      var c :| Models(c, f) && !Holds(c, -v);
      assert Holds(b, -v) && Holds(c, v);
    }
    if b, c :| Models(b, f) && Holds(b, v) && Models(c, f) && Holds(c, -v) {
      assert !Holds(b, -v) && !Holds(c, v);
    }
  }

  // ----- the boards of all processes ----------------------------------------------------

  /** One process: its board, the snapshots it has copied, one for each exchange, and how far
      it has merged: whole exchanges, and statuses of the next one. */
  datatype Process = Process(board: seq<int>, snaps: seq<seq<int>>, round: nat, done: nat)

  datatype Net = Net(n: nat, procs: seq<Process>)

  /** Every process has copied its board for exchange r, so the reduction can be over. */
  ghost predicate Ready(t: Net, r: nat) {
    forall i :: 0 <= i < |t.procs| ==> HasCopied(t, i, r)
  }

  ghost predicate HasCopied(t: Net, i: nat, r: nat)
    requires i < |t.procs|
  {
    r < |t.procs[i].snaps| && |t.procs[i].snaps[r]| == t.n
  }

  ghost predicate ProcessOK(t: Net, i: nat)
    requires i < |t.procs|
  {
    var p := t.procs[i];
    && |p.board| == t.n + 1 && p.done <= t.n
    && (|p.snaps| == p.round + 1 || (|p.snaps| == p.round && p.done == 0))
    && (forall r :: 0 <= r < |p.snaps| ==> |p.snaps[r]| <= t.n)
    && (forall r: nat :: r < p.round ==> Ready(t, r))
    && (p.done > 0 ==> Ready(t, p.round))
  }

  ghost predicate Shaped(t: Net) {
    forall i :: 0 <= i < |t.procs| ==> ProcessOK(t, i)
  }

  /** The maximum of the k-th statuses of the first m processes in exchange r. */
  ghost function Join(t: Net, r: nat, k: nat, m: nat): int
    requires m <= |t.procs| && Ready(t, r) && k < t.n
  {
    if m == 0 then UNKNOWN else
      assert HasCopied(t, m - 1, r);
      Max(Join(t, r, k, m - 1), t.procs[m - 1].snaps[r][k])
  }

  /** The result of exchange r for the k-th status. */
  ghost function Result(t: Net, r: nat, k: nat): int
    requires Ready(t, r) && k < t.n
  {
    Join(t, r, k, |t.procs|)
  }

  datatype Event =
    | Publish(i: nat, v: nat, value: int)  // a solver of process i publishes
    | Begin(i: nat)                        // process i begins its next exchange
    | Copy(i: nat)                         // it copies one more status
    | MergeOne(i: nat)                     // it merges one more reduced status
    | End(i: nat)                          // it has merged them all

  /** A process merges as soon as all have copied; nobody waits for the merges of others. */
  ghost predicate Enabled(f: Formula, t: Net, e: Event)
    requires Shaped(t)
  {
    && e.i < |t.procs|
    && var p := t.procs[e.i];
    match e
    case Publish(_, v, value) => 1 <= v <= t.n && value == Truth(f, v)
    case Begin(_) => |p.snaps| == p.round
    case Copy(_) => |p.snaps| == p.round + 1 && |p.snaps[p.round]| < t.n
    case MergeOne(_) => Ready(t, p.round) && p.done < t.n
    case End(_) => Ready(t, p.round) && p.done == t.n
  }

  /** The value that an event tries to write, if any: process, variable, value. */
  ghost predicate Writes(t: Net, e: Event, i: nat, v: nat, value: int)
    requires Shaped(t) && i < |t.procs| && 1 <= v <= t.n
  {
    match e
    case Publish(j, u, x) => i == j && v == u && value == x
    case MergeOne(j) =>
      i == j && Ready(t, t.procs[i].round) && v == t.procs[i].done + 1 && value == Result(t, t.procs[i].round, v - 1) && value != UNKNOWN
    case _ => false
  }

  /** Compare-and-swap from unknown. */
  function Swapped(old_: int, value: int): int {
    if old_ == UNKNOWN then value else old_
  }

  ghost function Next(f: Formula, t: Net, e: Event): (r: Net)
    requires Shaped(t) && Enabled(f, t, e)
    ensures r.n == t.n && |r.procs| == |t.procs|
  {
    assert ProcessOK(t, e.i);
    t.(procs := t.procs[e.i := Moved(t, e)])
  }

  /** What becomes of the process that takes the step. */
  ghost function Moved(t: Net, e: Event): Process
    requires e.i < |t.procs| && ProcessOK(t, e.i)
    requires e.Publish? ==> 1 <= e.v <= t.n
    requires e.Copy? ==> |t.procs[e.i].snaps| == t.procs[e.i].round + 1 && |t.procs[e.i].snaps[t.procs[e.i].round]| < t.n
    requires e.MergeOne? ==> Ready(t, t.procs[e.i].round) && t.procs[e.i].done < t.n
  {
    var p := t.procs[e.i];
    match e
    case Publish(_, v, value) => p.(board := p.board[v := Swapped(p.board[v], value)])
    case Begin(_) => p.(snaps := p.snaps + [[]])
    case Copy(_) => p.(snaps := p.snaps[p.round := p.snaps[p.round] + [p.board[|p.snaps[p.round]| + 1]]])
    case MergeOne(_) => p.(board := p.board[p.done + 1 := Swapped(p.board[p.done + 1], Result(t, p.round, p.done))], done := p.done + 1)
    case End(_) => p.(round := p.round + 1, done := 0)
  }

  // ----- what every step keeps ---------------------------------------------------------------

  ghost predicate Right(f: Formula, v: int, status: int) {
    status == UNKNOWN || status == Truth(f, v)
  }

  ghost predicate ProcessRight(f: Formula, t: Net, i: nat)
    requires i < |t.procs|
  {
    var p := t.procs[i];
    && |p.board| == t.n + 1 && (forall v :: 1 <= v <= t.n ==> Right(f, v, p.board[v]))
    && (forall r, k :: 0 <= r < |p.snaps| && 0 <= k < |p.snaps[r]| ==> Right(f, k + 1, p.snaps[r][k]))
  }

  /** All statuses, on boards and under way, are true of the formula. */
  ghost predicate Sound(f: Formula, t: Net) {
    Shaped(t) && forall i :: 0 <= i < |t.procs| ==> ProcessRight(f, t, i)
  }

  ghost function Start(n: nat, processes: nat): Net {
    Net(n, seq(processes, _ => Process(seq(n + 1, _ => UNKNOWN), [], 0, 0)))
  }

  lemma {:induction false} JoinRight(f: Formula, t: Net, r: nat, k: nat, m: nat)
    requires Sound(f, t) && m <= |t.procs| && Ready(t, r) && k < t.n
    ensures Right(f, k + 1, Join(t, r, k, m))
    ensures forall i :: 0 <= i < m && HasCopied(t, i, r) && t.procs[i].snaps[r][k] != UNKNOWN ==>
              Join(t, r, k, m) == t.procs[i].snaps[r][k]
  {
    hide Truth, Shaped;
    if m > 0 {
      JoinRight(f, t, r, k, m - 1);
      assert HasCopied(t, m - 1, r) && ProcessRight(f, t, m - 1);
      assert Right(f, k + 1, t.procs[m - 1].snaps[r][k]);
    }
  }

  /** What all have copied stays copied. */
  lemma ReadyKept(f: Formula, t: Net, e: Event, r: nat)
    requires Shaped(t) && Enabled(f, t, e) && Ready(t, r)
    ensures Ready(Next(f, t, e), r)
    ensures forall i :: 0 <= i < |t.procs| ==> r < |t.procs[i].snaps| && r < |Next(f, t, e).procs[i].snaps| && Next(f, t, e).procs[i].snaps[r] == t.procs[i].snaps[r]
  {
    assert ProcessOK(t, e.i) && HasCopied(t, e.i, r);
    var n := Next(f, t, e);
    forall i | 0 <= i < |t.procs| ensures HasCopied(n, i, r) && n.procs[i].snaps[r] == t.procs[i].snaps[r] {
      assert HasCopied(t, i, r);
    }
  }

  /** The process that takes the step is as it should be afterwards. */
  lemma MovedOK(f: Formula, t: Net, e: Event)
    requires Sound(f, t) && Enabled(f, t, e)
    ensures ProcessOK(Next(f, t, e), e.i) && ProcessRight(f, Next(f, t, e), e.i)
  {
    hide Truth;
    assert ProcessOK(t, e.i) && ProcessRight(f, t, e.i);
    var p, n := t.procs[e.i], Next(f, t, e);
    forall r: nat | Ready(t, r) ensures Ready(n, r) { ReadyKept(f, t, e, r); }
    if e.MergeOne? || e.End? { assert HasCopied(t, e.i, p.round); }
    hide Ready;
    match e
    case Publish(_, _, _) =>
    case Begin(_) =>
    case Copy(_) => assert Right(f, |p.snaps[p.round]| + 1, p.board[|p.snaps[p.round]| + 1]);
    case MergeOne(_) => JoinRight(f, t, p.round, p.done, |t.procs|);
    case End(_) =>
  }

  lemma NextSound(f: Formula, t: Net, e: Event)
    requires Sound(f, t) && Enabled(f, t, e)
    ensures Sound(f, Next(f, t, e))
  {
    hide Moved, Enabled, Truth, Right;
    var n := Next(f, t, e);
    forall r: nat | Ready(t, r) ensures Ready(n, r) { ReadyKept(f, t, e, r); }
    MovedOK(f, t, e);
    hide Ready;
    forall i | 0 <= i < |n.procs| ensures ProcessOK(n, i) && ProcessRight(f, n, i) {
      assert ProcessOK(t, i) && ProcessRight(f, t, i);
    }
  }

  /** Whoever writes finds the status unknown or the very value it writes. */
  lemma NoConflict(f: Formula, t: Net, e: Event, i: nat, v: nat, value: int)
    requires Sound(f, t) && Enabled(f, t, e) && i < |t.procs| && 1 <= v <= t.n && Writes(t, e, i, v, value)
    ensures |t.procs[i].board| == t.n + 1 && (t.procs[i].board[v] == UNKNOWN || t.procs[i].board[v] == value)
  {
    hide Truth;
    assert ProcessRight(f, t, i) && Right(f, v, t.procs[i].board[v]);
    if e.MergeOne? { JoinRight(f, t, t.procs[i].round, v - 1, |t.procs|); }
  }

  /** A known status never changes. */
  lemma WriteOnce(f: Formula, t: Net, e: Event, i: nat, v: nat)
    requires Shaped(t) && Enabled(f, t, e) && i < |t.procs| && 1 <= v <= t.n
    requires |t.procs[i].board| == t.n + 1 && t.procs[i].board[v] != UNKNOWN
    ensures |Next(f, t, e).procs[i].board| == t.n + 1 && Next(f, t, e).procs[i].board[v] == t.procs[i].board[v]
  {
    assert ProcessOK(t, i);
  }

  ghost predicate Legal(f: Formula, t: Net, events: seq<Event>)
    decreases |events|
  {
    events == [] || (Shaped(t) && Enabled(f, t, events[0]) && Legal(f, Next(f, t, events[0]), events[1..]))
  }

  ghost function Run(f: Formula, t: Net, events: seq<Event>): (r: Net)
    requires Legal(f, t, events)
    ensures r.n == t.n && |r.procs| == |t.procs|
    decreases |events|
  {
    if events == [] then t else Run(f, Next(f, t, events[0]), events[1..])
  }

  lemma {:induction false} RunSound(f: Formula, t: Net, events: seq<Event>)
    requires Sound(f, t) && Legal(f, t, events)
    ensures Sound(f, Run(f, t, events))
    decreases |events|
  {
    if events != [] {
      NextSound(f, t, events[0]);
      RunSound(f, Next(f, t, events[0]), events[1..]);
    }
  }

  lemma StartSound(f: Formula, n: nat, processes: nat)
    ensures Sound(f, Start(n, processes))
  {
    hide Truth;
    var t := Start(n, processes);
    forall i | 0 <= i < |t.procs| ensures ProcessOK(t, i) && ProcessRight(f, t, i) {}
  }

  /** Over any interleaving on any number of processes, which may be in different
      exchanges, every status is true of the formula. */
  lemma EveryRun(f: Formula, n: nat, processes: nat, events: seq<Event>)
    requires Legal(f, Start(n, processes), events)
    ensures Sound(f, Run(f, Start(n, processes), events))
  {
    StartSound(f, n, processes);
    RunSound(f, Start(n, processes), events);
  }

  // ----- an exchange without publications ----------------------------------------------

  /** When nobody publishes any more: what process i copies for exchange r is its board, what
      it has merged of it is the result, and later copies are the result again. */
  ghost predicate SettledAt(t: Net, r: nat, i: nat)
    requires i < |t.procs|
  {
    var p := t.procs[i];
    && |p.board| == t.n + 1 && (p.round > r || (p.round == r && p.done > 0) ==> Ready(t, r))
    && (p.round == r < |p.snaps| ==> forall k :: p.done <= k < |p.snaps[r]| && k < t.n ==> p.board[k + 1] == p.snaps[r][k])
    && (Ready(t, r) ==> forall k: nat :: k < t.n && (p.round > r || (p.round == r && k < p.done)) ==> p.board[k + 1] == Result(t, r, k))
    && (Ready(t, r) ==> forall s, k: nat :: r < s < |p.snaps| && k < |p.snaps[s]| && k < t.n ==> p.snaps[s][k] == Result(t, r, k))
  }

  ghost predicate Settled(t: Net, r: nat) {
    forall i :: 0 <= i < |t.procs| ==> SettledAt(t, r, i)
  }

  lemma ResultKept(f: Formula, t: Net, e: Event, r: nat, k: nat)
    requires Shaped(t) && Enabled(f, t, e) && Ready(t, r) && k < t.n
    ensures Ready(Next(f, t, e), r) && Result(Next(f, t, e), r, k) == Result(t, r, k)
  {
    ReadyKept(f, t, e, r);
    SameJoin(t, Next(f, t, e), r, k, |t.procs|);
  }

  lemma {:induction false} SameJoin(t: Net, n: Net, r: nat, k: nat, m: nat)
    requires n.n == t.n && |n.procs| == |t.procs| && m <= |t.procs| && k < t.n && Ready(t, r) && Ready(n, r)
    requires forall i :: 0 <= i < |t.procs| ==> r < |t.procs[i].snaps| && r < |n.procs[i].snaps| && n.procs[i].snaps[r] == t.procs[i].snaps[r]
    ensures Join(n, r, k, m) == Join(t, r, k, m)
  {
    if m > 0 { SameJoin(t, n, r, k, m - 1); }
  }

  /** When all contribute x to exchange s, that is its result. */
  lemma {:induction false} JoinOfSame(f: Formula, t: Net, s: nat, k: nat, m: nat, x: int)
    requires m <= |t.procs| && k < t.n && Ready(t, s) && x >= UNKNOWN
    requires forall i :: 0 <= i < m ==> HasCopied(t, i, s) && t.procs[i].snaps[s][k] == x
    ensures m > 0 ==> Join(t, s, k, m) == x
  {
    if m > 0 {
      JoinOfSame(f, t, s, k, m - 1, x);
      assert HasCopied(t, m - 1, s);
    }
  }

  /** Later results repeat the one of exchange r. */
  lemma LaterResult(f: Formula, t: Net, r: nat, s: nat, k: nat)
    requires Sound(f, t) && Settled(t, r) && r < s && Ready(t, s) && Ready(t, r) && k < t.n && |t.procs| > 0
    ensures Result(t, s, k) == Result(t, r, k)
  {
    hide Truth, Shaped;
    JoinRight(f, t, r, k, |t.procs|);
    RightNonnegative(f, k + 1, Result(t, r, k));
    forall i | 0 <= i < |t.procs| ensures HasCopied(t, i, s) && t.procs[i].snaps[s][k] == Result(t, r, k) {
      assert SettledAt(t, r, i) && HasCopied(t, i, s);
    }
    JoinOfSame(f, t, s, k, |t.procs|, Result(t, r, k));
  }

  lemma RightNonnegative(f: Formula, v: int, status: int)
    requires Right(f, v, status)
    ensures status >= UNKNOWN
  {}

  /** Merging the result over what was copied of the same board gives the result. */
  lemma MergesToResult(f: Formula, t: Net, r: nat, i: nat, k: nat)
    requires Sound(f, t) && Settled(t, r) && i < |t.procs| && k < t.n && Ready(t, r)
    requires t.procs[i].round == r && t.procs[i].done <= k
    ensures |t.procs[i].board| == t.n + 1 && Swapped(t.procs[i].board[k + 1], Result(t, r, k)) == Result(t, r, k)
  {
    hide Truth, Shaped;
    assert SettledAt(t, r, i) && HasCopied(t, i, r);
    JoinRight(f, t, r, k, |t.procs|);
  }

  lemma SettledMoved(f: Formula, t: Net, e: Event, r: nat)
    requires Sound(f, t) && Settled(t, r) && Enabled(f, t, e) && !e.Publish?
    ensures SettledAt(Next(f, t, e), r, e.i)
  {
    hide Truth, Join;
    var i, p, n := e.i, t.procs[e.i], Next(f, t, e);
    assert SettledAt(t, r, i) && ProcessOK(t, i);
    ResultsKept(f, t, e, r);
    if Ready(t, p.round) { assert HasCopied(t, i, p.round); }
    hide Ready, Result;
    match e
    case Begin(_) =>
    case Copy(_) =>
    case MergeOne(_) =>
      if p.round == r { MergesToResult(f, t, r, i, p.done); }
      if p.round > r { LaterResult(f, t, r, p.round, p.done); }
    case End(_) =>
  }

  lemma ResultsKept(f: Formula, t: Net, e: Event, r: nat)
    requires Shaped(t) && Enabled(f, t, e)
    ensures Ready(t, r) ==> Ready(Next(f, t, e), r) && forall k: nat :: k < t.n ==> Result(Next(f, t, e), r, k) == Result(t, r, k)
  {
    if Ready(t, r) {
      ReadyKept(f, t, e, r);
      forall k: nat | k < t.n ensures Result(Next(f, t, e), r, k) == Result(t, r, k) { ResultKept(f, t, e, r, k); }
    }
  }

  lemma SettledNext(f: Formula, t: Net, e: Event, r: nat)
    requires Sound(f, t) && Settled(t, r) && Enabled(f, t, e) && !e.Publish?
    ensures Settled(Next(f, t, e), r)
  {
    hide Truth, Join, Moved, Enabled;
    var n := Next(f, t, e);
    SettledMoved(f, t, e, r);
    ResultsKept(f, t, e, r);
    forall i | 0 <= i < |n.procs| ensures SettledAt(n, r, i) {
      assert SettledAt(t, r, i) && ProcessOK(t, i);
      hide Ready, Result;
    }
  }

  lemma {:induction false} SettledRun(f: Formula, t: Net, events: seq<Event>, r: nat)
    requires Sound(f, t) && Settled(t, r) && Legal(f, t, events) && forall e :: e in events ==> !e.Publish?
    ensures Settled(Run(f, t, events), r)
    decreases |events|
  {
    if events != [] {
      assert events[0] in events;
      NextSound(f, t, events[0]);
      SettledNext(f, t, events[0], r);
      SettledRun(f, Next(f, t, events[0]), events[1..], r);
    }
  }

  /** Nobody has begun exchange r, and nobody publishes any more. Then any two processes that
      have merged it agree from then on, whatever exchange the others are in. */
  lemma ExchangeAgrees(f: Formula, t: Net, events: seq<Event>, r: nat, i: nat, j: nat, v: nat)
    requires Sound(f, t) && forall k :: 0 <= k < |t.procs| ==> |t.procs[k].snaps| <= r
    requires Legal(f, t, events) && forall e :: e in events ==> !e.Publish?
    requires i < |t.procs| && j < |t.procs| && 1 <= v <= t.n
    requires var u := Run(f, t, events); u.procs[i].round > r && u.procs[j].round > r
    ensures var u := Run(f, t, events);
            |u.procs[i].board| == |u.procs[j].board| == t.n + 1 && u.procs[i].board[v] == u.procs[j].board[v]
  {
    hide Run, Legal, Result;
    SettledStart(f, t, r);
    SettledRun(f, t, events, r);
    var u := Run(f, t, events);
    assert SettledAt(u, r, i) && SettledAt(u, r, j);
    assert u.procs[i].board[v - 1 + 1] == Result(u, r, v - 1) == u.procs[j].board[v - 1 + 1];
  }

  lemma SettledStart(f: Formula, t: Net, r: nat)
    requires Sound(f, t) && forall k :: 0 <= k < |t.procs| ==> |t.procs[k].snaps| <= r
    ensures Settled(t, r)
  {
    hide Truth;
    forall i | 0 <= i < |t.procs| ensures SettledAt(t, r, i) {
      assert ProcessOK(t, i);
      if t.procs[i].done > 0 { assert HasCopied(t, i, t.procs[i].round); }
    }
  }

  // ----- the board of one process --------------------------------------------------------

  class CandidateBoard {
    const nbVars: nat
    const statuses: array<int>

    ghost predicate Valid()
      reads statuses
    {
      statuses.Length == nbVars + 1 && forall v :: 0 <= v <= nbVars ==> UNKNOWN <= statuses[v] <= FREE_VAR
    }

    /** All statuses on this board are true of the formula. */
    ghost predicate True(f: Formula)
      reads statuses
    {
      Valid() && forall v :: 1 <= v <= nbVars ==> Right(f, v, statuses[v])
    }

    constructor (nbVars: nat)
      ensures Valid() && this.nbVars == nbVars && fresh(statuses) && forall v :: 0 <= v <= nbVars ==> statuses[v] == UNKNOWN
    {
      this.nbVars := nbVars;
      statuses := new int[nbVars + 1](_ => UNKNOWN);
    }

    /** Writes a status that is unknown; a known one must be the same. */
    method Publish(v: nat, value: int) returns (new_: bool)
      requires Valid() && POSITIVE <= value <= FREE_VAR
      requires 1 <= v <= nbVars ==> statuses[v] == UNKNOWN || statuses[v] == value
      modifies statuses
      ensures Valid() && (new_ <==> 1 <= v <= nbVars && old(statuses[v]) == UNKNOWN)
      ensures forall u :: 0 <= u <= nbVars ==> statuses[u] == if u == v && u > 0 then value else old(statuses[u])
    {
      if v == 0 || v > nbVars { return false; }
      var expected := statuses[v];
      if expected == UNKNOWN {
        statuses[v] := value;
        return true;
      }
      assert expected == value;
      return false;
    }

    /** A solver that has shown a literal to be backbone says so. */
    method PublishBackbone(lit: int, ghost f: Formula) returns (new_: bool)
      requires True(f) && !Unsatisfiable(f) && lit != 0 && Backbone(f, lit)
      modifies statuses
      ensures True(f) && (new_ <==> Abs(lit) <= nbVars && old(statuses[Abs(lit)]) == UNKNOWN)
      ensures Abs(lit) <= nbVars ==> Status(Abs(lit)) == lit
    {
      TruthMeans(f, Abs(lit));
      new_ := Publish(Abs(lit), if lit > 0 then POSITIVE else NEGATIVE);
    }

    /** A solver that has found models with both values says so. */
    method PublishFree(v: int, ghost f: Formula) returns (new_: bool)
      requires True(f) && !Unsatisfiable(f) && v != 0 && !Backbone(f, v) && !Backbone(f, -v)
      modifies statuses
      ensures True(f) && (new_ <==> Abs(v) <= nbVars && old(statuses[Abs(v)]) == UNKNOWN)
      ensures Abs(v) <= nbVars ==> Status(Abs(v)) == FREE
    {
      new_ := Publish(Abs(v), FREE_VAR);
    }

    /** The backbone literal of the variable, or free, or 0 if unknown or out of range. */
    function Status(v: int): (r: int)
      requires Valid()
      reads statuses
      ensures Abs(v) == 0 || Abs(v) > nbVars ==> r == 0
    {
      var x: int := Abs(v);
      if x == 0 || x > nbVars then 0
      else if statuses[x] == POSITIVE then x
      else if statuses[x] == NEGATIVE then -x
      else if statuses[x] == FREE_VAR then FREE
      else 0
    }

    /** What a reader may conclude from a board that is true. */
    lemma StatusMeans(f: Formula, v: int)
      requires True(f) && !Unsatisfiable(f) && 1 <= v <= nbVars < FREE
      ensures Status(v) == v ==> Backbone(f, v)
      ensures Status(v) == -v ==> Backbone(f, -v)
      ensures Status(v) == FREE ==> !Backbone(f, v) && !Backbone(f, -v)
    {
      TruthMeans(f, v);
    }

    method Snapshot() returns (out: seq<int>)
      requires Valid()
      ensures |out| == nbVars && forall v :: 1 <= v <= nbVars ==> out[v - 1] == statuses[v]
    {
      out := [];
      for v := 1 to nbVars + 1
        invariant |out| == v - 1 && forall u :: 1 <= u < v ==> out[u - 1] == statuses[u]
      {
        out := out + [statuses[v]];
      }
    }

    /** Publishes what another board knows, and counts what was new. */
    method Merge(in_: seq<int>, ghost f: Formula) returns (added: nat)
      requires True(f) && |in_| == nbVars && forall k :: 0 <= k < nbVars ==> UNKNOWN <= in_[k] <= FREE_VAR && Right(f, k + 1, in_[k])
      modifies statuses
      ensures True(f) && forall v :: 1 <= v <= nbVars ==> statuses[v] == Swapped(old(statuses[v]), Incoming(in_, v))
      ensures added == NewCount(old(statuses[..]), in_, nbVars)
    {
      hide Truth, NewCount;
      NewNone(statuses[..], in_);
      added := 0;
      for v := 1 to nbVars + 1
        invariant True(f) && added == NewCount(old(statuses[..]), in_, v - 1)
        invariant forall u :: 1 <= u <= nbVars ==> statuses[u] == if u < v then Swapped(old(statuses[u]), Incoming(in_, u)) else old(statuses[u])
      {
        NewNext(old(statuses[..]), in_, v);
        if in_[v - 1] != UNKNOWN {
          assert Right(f, v, statuses[v]) && Right(f, v - 1 + 1, in_[v - 1]);
          var new_ := Publish(v, in_[v - 1]);
          if new_ { added := added + 1; }
        }
      }
    }
  }

  function Incoming(in_: seq<int>, v: int): int {
    if 1 <= v <= |in_| then in_[v - 1] else UNKNOWN
  }

  /** How many of the first n variables were unknown and are not in the incoming statuses. */
  ghost function NewCount(was: seq<int>, in_: seq<int>, n: nat): nat
    requires n < |was| && n <= |in_|
  {
    if n == 0 then 0 else NewCount(was, in_, n - 1) + if was[n] == UNKNOWN && in_[n - 1] != UNKNOWN then 1 else 0
  }

  lemma NewNone(was: seq<int>, in_: seq<int>)
    requires |was| > 0
    ensures NewCount(was, in_, 0) == 0
  {}

  lemma NewNext(was: seq<int>, in_: seq<int>, n: nat)
    requires 0 < n < |was| && n <= |in_|
    ensures NewCount(was, in_, n) == NewCount(was, in_, n - 1) + if was[n] == UNKNOWN && in_[n - 1] != UNKNOWN then 1 else 0
  {}
}
