/** Clauses shared through a lock-free queue: every atomic access is one step,
    and any number of producers and consumers take steps in any order. */
module RefCount {

  const WORD := 0x1_0000_0000_0000_0000

  datatype State = State(
    counter: map<int, nat>,     // the reference count of every clause created
    handles: multiset<int>,     // live smart pointers
    pushing: multiset<int>,     // raw pointers of producers that have not pushed yet
    popped: multiset<int>,      // raw pointers of consumers that have not wrapped them yet
    queue: seq<int>,
    pushed: seq<int>,           // everything ever pushed, in order
    taken: seq<int>,            // everything ever popped, in order
    freed: multiset<int>,       // how often each clause was freed
    incs: nat,                  // pushes whose size increment is still to come
    decs: nat,                  // pops whose size decrement is still to come
    size: int)

  datatype Event =
    | Create(c: int)
    | Copy(c: int)              // intrusive_ptr_add_ref
    | Drop(c: int)              // intrusive_ptr_release
    | ToRaw(c: int)             // a producer takes a raw pointer
    | Push(c: int, ok: bool)    // and pushes it; on failure it becomes a handle again
    | Inc
    | Pop
    | Wrap(c: int)              // a consumer makes its raw pointer a handle
    | Dec

  predicate Enabled(s: State, e: Event) {
    match e
    case Create(c) => c !in s.counter
    case Copy(c) => c in s.counter && s.handles[c] > 0
    case Drop(c) => c in s.counter && s.handles[c] > 0 && s.counter[c] > 0
    case ToRaw(c) => c in s.counter && s.handles[c] > 0
    case Push(c, _) => s.pushing[c] > 0
    case Inc => s.incs > 0
    case Pop => s.queue != []
    case Wrap(c) => s.popped[c] > 0
    case Dec => s.decs > 0
  }

  function Next(s: State, e: Event): State
    requires Enabled(s, e)
  {
    match e
    case Create(c) => s.(counter := s.counter[c := 1], handles := s.handles + multiset{c})
    case Copy(c) => s.(counter := s.counter[c := s.counter[c] + 1], handles := s.handles + multiset{c})
    case Drop(c) =>
      s.(counter := s.counter[c := s.counter[c] - 1], handles := s.handles - multiset{c},
         freed := if s.counter[c] == 1 then s.freed + multiset{c} else s.freed)
    case ToRaw(c) => s.(counter := s.counter[c := s.counter[c] + 1], pushing := s.pushing + multiset{c})
    case Push(c, ok) =>
      if ok then s.(pushing := s.pushing - multiset{c}, queue := s.queue + [c], pushed := s.pushed + [c], incs := s.incs + 1)
      else s.(pushing := s.pushing - multiset{c}, handles := s.handles + multiset{c})
    case Inc => s.(incs := s.incs - 1, size := (s.size + 1) % WORD)
    case Pop =>
      s.(queue := s.queue[1..], taken := s.taken + [s.queue[0]], popped := s.popped + multiset{s.queue[0]}, decs := s.decs + 1)
    case Wrap(c) => s.(popped := s.popped - multiset{c}, handles := s.handles + multiset{c})
    case Dec => s.(decs := s.decs - 1, size := (s.size - 1) % WORD)
  }

  function Start(): State {
    State(map[], multiset{}, multiset{}, multiset{}, [], [], [], multiset{}, 0, 0, 0)
  }

  // ----- what every step keeps -----------------------------------------------------

  /** Everything that keeps a clause alive. */
  function References(s: State, c: int): nat {
    s.handles[c] + s.pushing[c] + s.popped[c] + multiset(s.queue)[c]
  }

  /** The counter is the number of references, and the clause was freed, once, exactly if there are none. */
  predicate ClauseOK(s: State, c: int) {
    if c in s.counter then s.counter[c] == References(s, c) && s.freed[c] == (if s.counter[c] == 0 then 1 else 0)
    else References(s, c) == 0 && s.freed[c] == 0
  }

  /** The size is that of the queue, up to the increments and decrements to come. */
  predicate SizeOK(s: State) {
    && s.size == (|s.queue| - s.incs + s.decs) % WORD
    && s.pushed == s.taken + s.queue
  }

  ghost predicate Sound(s: State) {
    SizeOK(s) && forall c :: ClauseOK(s, c)
  }

  lemma StartSound()
    ensures Sound(Start())
  {}

  lemma ModPlus(x: int, d: int)
    ensures (x % WORD + d) % WORD == (x + d) % WORD
  {
    var q := x / WORD;
    assert x % WORD + d == (x + d) - WORD * q;
    Wraps(x + d, q);
  }

  lemma {:induction false} Wraps(y: int, q: int)
    ensures (y - WORD * q) % WORD == y % WORD
    decreases if q < 0 then -q else q
  {
    if q > 0 { Wraps(y - WORD, q - 1); } else if q < 0 { Wraps(y + WORD, q + 1); }
  }

  lemma NextSound(s: State, e: Event)
    requires Sound(s) && Enabled(s, e)
    ensures Sound(Next(s, e))
  {
    hide SizeOK, ClauseOK, Next, Enabled;
    SizeKept(s, e);
    forall c ensures ClauseOK(Next(s, e), c) { ClauseKept(s, e, c); }
  }

  lemma ClauseKept(s: State, e: Event, c: int)
    requires ClauseOK(s, c) && Enabled(s, e)
    ensures ClauseOK(Next(s, e), c)
  {
    match e
    case Push(d, _) => assert multiset(s.queue + [d]) == multiset(s.queue) + multiset{d};
    case Pop => assert s.queue == [s.queue[0]] + s.queue[1..];
    case _ =>
  }

  lemma SizeKept(s: State, e: Event)
    requires SizeOK(s) && Enabled(s, e)
    ensures SizeOK(Next(s, e))
  {
    var x := |s.queue| - s.incs + s.decs;
    if e.Inc? { ModPlus(x, 1); }
    if e.Dec? { ModPlus(x, -1); }
    if e.Pop? { assert s.queue == [s.queue[0]] + s.queue[1..]; }
  }

  /** The clause that an event accesses, if any. */
  function Touches(s: State, e: Event): set<int>
    requires Enabled(s, e)
  {
    match e
    case Copy(c) => {c}
    case Drop(c) => {c}
    case ToRaw(c) => {c}
    case Push(c, _) => {c}
    case Pop => {s.queue[0]}
    case Wrap(c) => {c}
    case _ => {}
  }

  /** Nothing that was freed is ever accessed, queued or freed again. */
  lemma NoUseAfterFree(s: State, e: Event, c: int)
    requires Sound(s) && Enabled(s, e) && c in Touches(s, e)
    ensures c in s.counter && s.counter[c] > 0 && s.freed[c] == 0
    ensures forall d :: d in s.queue ==> d in s.counter && s.freed[d] == 0
  {
    assert ClauseOK(s, c);
    if e.Pop? { assert c in s.queue; }
    forall d | d in s.queue ensures d in s.counter && s.freed[d] == 0 { assert ClauseOK(s, d) && d in multiset(s.queue); }
  }

  // ----- over every run -------------------------------------------------------------

  ghost predicate Legal(s: State, events: seq<Event>)
    decreases |events|
  {
    events == [] || (Enabled(s, events[0]) && Legal(Next(s, events[0]), events[1..]))
  }

  ghost function Run(s: State, events: seq<Event>): State
    requires Legal(s, events)
    decreases |events|
  {
    if events == [] then s else Run(Next(s, events[0]), events[1..])
  }

  lemma {:induction false} RunSound(s: State, events: seq<Event>)
    requires Sound(s) && Legal(s, events)
    ensures Sound(Run(s, events))
    decreases |events|
  {
    if events != [] {
      NextSound(s, events[0]);
      RunSound(Next(s, events[0]), events[1..]);
    }
  }

  /** In every interleaving: clauses leave the queue in the order they entered it,
      each clause is freed exactly when nothing refers to it any more, and the size
      is exact once no operation is under way. */
  lemma EveryRun(events: seq<Event>)
    requires Legal(Start(), events)
    ensures var s := Run(Start(), events);
            && s.pushed == s.taken + s.queue
            && (forall c :: ClauseOK(s, c))
            && (forall c :: c in s.counter ==> (s.freed[c] == 1 <==> References(s, c) == 0) && s.freed[c] <= 1)
            && (s.incs == 0 && s.decs == 0 && |s.queue| < WORD ==> s.size == |s.queue|)
  {
    StartSound();
    RunSound(Start(), events);
    var s := Run(Start(), events);
    forall c | c in s.counter ensures (s.freed[c] == 1 <==> References(s, c) == 0) && s.freed[c] <= 1 { assert ClauseOK(s, c); }
  }

  // ----- the operations of the buffer, when nothing interferes ------------------------

  class ClauseBuffer {
    var queue: seq<int>
    var mSize: int
    var counter: map<int, nat>
    ghost var state: State

    ghost predicate Valid()
      reads this
    {
      && Sound(state) && state.queue == queue && state.size == mSize && state.counter == counter
      && state.incs == 0 && state.decs == 0 && state.pushing == multiset{} && state.popped == multiset{}
    }

    constructor ()
      ensures Valid() && state == Start() && queue == []
    {
      queue, mSize, counter, state := [], 0, map[], Start();
    }

    method ToRawPtr(c: int)
      requires Sound(state) && Enabled(state, ToRaw(c)) && state.counter == counter
      modifies `counter, `state
      ensures state == Next(old(state), ToRaw(c)) && Sound(state) && state.counter == counter
    {
      NextSound(state, ToRaw(c));
      counter := counter[c := counter[c] + 1];
      state := Next(state, ToRaw(c));
    }

    /** Drops a handle, and frees the clause with the last reference. */
    method Release(c: int) returns (freed: bool)
      requires Sound(state) && Enabled(state, Drop(c)) && state.counter == counter
      modifies `counter, `state
      ensures state == Next(old(state), Drop(c)) && Sound(state) && state.counter == counter
      ensures freed <==> old(state.freed[c]) == 0 && state.freed[c] == 1
    {
      NextSound(state, Drop(c));
      assert ClauseOK(state, c);
      freed := counter[c] == 1;
      counter := counter[c := counter[c] - 1];
      state := Next(state, Drop(c));
    }

    /** Adds a clause the caller has a handle of. If the queue refuses it, no reference stays behind. */
    method AddClause(c: int, room: bool) returns (ok: bool)
      requires Valid() && c in counter && state.handles[c] > 0
      modifies this
      ensures Valid() && ok == room && state.handles == old(state.handles) && state.freed == old(state.freed)
      ensures ok ==> queue == old(queue) + [c] && counter == old(counter)[c := old(counter[c]) + 1]
      ensures !ok ==> queue == old(queue) && counter == old(counter)
    {
      hide Sound;
      ghost var before := state;
      ToRawPtr(c);
      NextSound(state, Push(c, room));
      state := Next(state, Push(c, room));
      if room {
        queue := queue + [c];
        NextSound(state, Inc);
        mSize := (mSize + 1) % WORD;
        state := Next(state, Inc);
      } else {
        Referenced(before, c);
        var freed := Release(c);
        assert counter == old(counter);
      }
      ok := room;
    }

    lemma Referenced(s: State, c: int)
      requires Sound(s) && c in s.counter && s.handles[c] > 0
      ensures s.counter[c] > 0
    {
      assert ClauseOK(s, c);
    }

    /** Takes the oldest clause out; the caller owns the reference the queue had. */
    method GetClause() returns (c: int, ok: bool)
      requires Valid()
      modifies this
      ensures Valid() && (ok <==> old(queue) != []) && counter == old(counter) && state.freed == old(state.freed)
      ensures ok ==> old(queue) == [c] + queue && state.handles == old(state.handles) + multiset{c}
      ensures !ok ==> queue == [] && state == old(state)
    {
      hide Sound;
      if queue == [] { return 0, false; }
      NextSound(state, Pop);
      c := queue[0];
      queue := queue[1..];
      state := Next(state, Pop);
      NextSound(state, Wrap(c));
      state := Next(state, Wrap(c));
      NextSound(state, Dec);
      mSize := (mSize - 1) % WORD;
      state := Next(state, Dec);
      ok := true;
    }

    /** Takes everything out, in order. */
    method GetClauses() returns (clauses: seq<int>)
      requires Valid()
      modifies this
      ensures Valid() && clauses == old(queue) && queue == [] && counter == old(counter) && state.freed == old(state.freed)
      ensures state.handles == old(state.handles) + multiset(old(queue))
    {
      clauses := [];
      var more := queue != [];
      while more
        invariant Valid() && clauses + queue == old(queue) && (more <==> queue != [])
        invariant counter == old(counter) && state.freed == old(state.freed) && state.handles == old(state.handles) + multiset(clauses)
        decreases |queue|
      {
        var c, ok := GetClause();
        clauses := clauses + [c];
        more := queue != [];
      }
      assert clauses == old(queue);
    }

    /** Once nothing is under way the size is that of the queue. */
    lemma SizeExact()
      requires Valid() && |queue| < WORD
      ensures mSize == |queue|
    {}
  }
}
