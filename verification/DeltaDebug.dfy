/** The delta debugger: removes events from a trace in ever smaller chunks, as
    long as the run of what is left has the same outcome. */
module DeltaDebug {
  import opened Finite

  datatype Type = Add | Init | Sat | Release | Deref | Return | Other(code: int)

  /** The run in which something was removed, or never. */
  datatype Stamp = At(run: nat) | Never

  predicate Removed(s: Stamp, runs: nat) {
    s.At? && s.run <= runs
  }

  datatype Range = Range(from: nat, to: nat, removed: Stamp)

  predicate Has(r: Range, i: int) {
    r.from <= i <= r.to
  }

  function Events(n: nat): set<int> {
    set i | 0 <= i < n && IsEvent(n, i)
  }

  predicate IsEvent(n: nat, i: int) { i < n }

  /** What is left of a set without the events of ranges a to b - 1. */
  ghost function Minus(s: set<int>, ranges: seq<Range>, a: nat, b: nat): set<int>
    requires a <= b <= |ranges|
  {
    set i | i in s && !Within(ranges, a, b, i)
  }

  ghost predicate Within(ranges: seq<Range>, a: nat, b: nat, i: int)
    requires a <= b <= |ranges|
  {
    exists k :: a <= k < b && Has(ranges[k], i)
  }

  ghost predicate Disjoint(ranges: seq<Range>, n: nat) {
    && (forall k :: 0 <= k < |ranges| ==> ranges[k].from <= ranges[k].to < n)
    && (forall k, l :: 0 <= k < l < |ranges| ==> ranges[k].to < ranges[l].from)
  }

  /** A range is marked removed exactly if none of its events is live. */
  ghost predicate Marked(ranges: seq<Range>, live: set<int>, runs: nat) {
    forall k :: 0 <= k < |ranges| ==> (Removed(ranges[k].removed, runs) <==> forall i :: i in live ==> !Has(ranges[k], i))
  }

  /** Every live event is in a range. */
  ghost predicate Covered(ranges: seq<Range>, live: set<int>) {
    forall i :: i in live ==> Within(ranges, 0, |ranges|, i)
  }

  /** An attempt on the ranges pos to pos + width - 1 of a granularity. */
  datatype Chunk = Chunk(rgran: int, pos: nat, width: nat)

  /** All chunks of one width. */
  function ChunksOf(rgran: int, pos: nat, width: nat, n: nat): seq<Chunk>
    requires width > 0
    decreases n - pos
  {
    if pos >= n then [] else [Chunk(rgran, pos, width)] + ChunksOf(rgran, pos + width, width, n)
  }

  /** The chunks of all widths from the given one on: halves down to four, and then one less each time. */
  function WidthsOf(rgran: int, width: nat, n: nat): seq<Chunk> {
    if width == 0 then []
    else ChunksOf(rgran, 0, width, n) + WidthsOf(rgran, if width > 4 then width / 2 else width - 1, n)
  }

  function PassOf(rgran: int, n: nat): seq<Chunk> { WidthsOf(rgran, n / 2, n) }

  /** Round after round passes from the coarsest granularity to the finest; each has its own number of ranges. */
  function RoundsOf(sizes: seq<(nat, nat, nat)>): seq<Chunk> {
    if sizes == [] then []
    else
      var s := sizes[|sizes| - 1];
      RoundsOf(sizes[..|sizes| - 1]) + (PassOf(2, s.0) + PassOf(1, s.1) + PassOf(0, s.2))
  }

  class Reducer {
    const types: seq<Type>
    const args: seq<int>
    /** The exit status of a run of the given events; runs are deterministic. */
    const outcome: set<int> -> int
    const golden: int
    const stamps: array<Stamp>
    var ranges: seq<Range>
    var runs: nat
    var changed: bool
    /** All attempts made. */
    ghost var tried: seq<Chunk>

    predicate Reme(i: nat)
      requires i < stamps.Length
      reads stamps, `runs
    {
      Removed(stamps[i], runs)
    }

    /** The events that take part in the next run. */
    function Live(): set<int>
      reads stamps, `runs
    {
      set i | 0 <= i < stamps.Length && !Reme(i)
    }

    /** All removals are of earlier runs, and the live events have the golden outcome. */
    ghost predicate Valid()
      reads stamps, `runs
    {
      && stamps.Length == |types| == |args| && outcome(Live()) == golden
      && forall i :: 0 <= i < stamps.Length && stamps[i].At? ==> stamps[i].run < runs
    }

    constructor (types: seq<Type>, args: seq<int>, outcome: set<int> -> int)
      requires |types| == |args|
      ensures Valid() && fresh(stamps) && this.types == types && this.args == args && this.outcome == outcome
      ensures Live() == Events(|types|) && golden == outcome(Live())
    {
      this.types, this.args, this.outcome := types, args, outcome;
      golden := outcome(Events(|types|));
      stamps := new Stamp[|types|](_ => Never);
      ranges, runs, changed, tried := [], 1, false, [];
      new;
      assert Live() == Events(|types|);
    }

    // ----- ranges --------------------------------------------------------------------

    /** Which events the range from a live event on joins. Coarsest are calls: a call of the solver with its
        result, the reading of values with the values, and other events of one kind, except that starting
        and releasing stand alone. Then come clauses with their closing zero, and then single events. */
    ghost predicate Joined(was: seq<Stamp>, rgran: int, from: nat, to: nat)
      reads `runs
    {
      && from <= to < |was| == |types| == |args|
      && if rgran == 2 then JoinsCalls(from, to)
         else if rgran == 1 then JoinsClause(was, from, to)
         else to == from
    }

    ghost predicate JoinsCalls(from: nat, to: nat)
      requires from <= to < |types|
    {
      match types[from]
      case Init => to == from
      case Release => to == from
      case Sat => to == if from + 1 < |types| && types[from + 1] == Return then from + 1 else from
      case Deref =>
        && (forall i :: from < i <= to ==> types[i] == Deref || types[i] == Return)
        && (to + 1 < |types| ==> types[to + 1] != Deref && types[to + 1] != Return)
      case _ =>
        && (forall i :: from < i <= to ==> types[i] == types[from])
        && (to + 1 < |types| ==> types[to + 1] != types[from])
    }

    ghost predicate JoinsClause(was: seq<Stamp>, from: nat, to: nat)
      requires from <= to < |was| == |types| == |args|
      reads `runs
    {
      if types[from] != Add then to == from
      else
        && (forall i :: from <= i < to ==> GoesOn(was, i))
        && (to + 1 < |was| ==> !GoesOn(was, to))
    }

    /** A clause goes on after a removed event or a literal. */
    ghost predicate GoesOn(was: seq<Stamp>, i: nat)
      requires i < |was| == |types| == |args|
      reads `runs
    {
      Removed(was[i], runs) || (types[i] == Add && args[i] != 0)
    }

    /** Where the range that starts at a live event ends. */
    method RangeEnd(rgran: int, from: nat) returns (to: nat)
      requires Valid() && from < stamps.Length && !Reme(from)
      ensures from <= to < stamps.Length && Joined(stamps[..], rgran, from, to)
    {
      var n := stamps.Length;
      to := from;
      if rgran == 2 {
        var cluster := types[from];
        while to + 1 < n
          invariant from <= to < n && (cluster == Init || cluster == Sat || cluster == Release ==> to == from)
          invariant forall i :: from < i <= to ==> types[i] == cluster || (cluster == Deref && types[i] == Return)
          decreases n - to
        {
          var next := types[to + 1];
          if next != cluster {
            if cluster == Deref && next == Return {
            } else if cluster == Sat && next == Return {
              to := to + 1;
              break;
            } else {
              break;
            }
          } else if cluster == Init || cluster == Sat || cluster == Release {
            break;
          }
          to := to + 1;
        }
      } else if rgran == 1 {
        if to + 1 < n && types[to] == Add {
          while to + 1 < n && (Reme(to) || (types[to] == Add && args[to] != 0))
            invariant from <= to < n && forall i :: from <= i < to ==> GoesOn(stamps[..], i)
          {
            to := to + 1;
          }
        }
      }
      // The finest ranges only go on over removed events, and the first is live.
    }

    /** Cuts the trace into ranges: the first of each is live, and every live event is in one. */
    method MakeRanges(rgran: int)
      requires Valid()
      modifies `ranges
      ensures Disjoint(ranges, stamps.Length) && Marked(ranges, Live(), runs) && Covered(ranges, Live())
      ensures forall k :: 0 <= k < |ranges| ==> ranges[k].removed == Never && ranges[k].from in Live() && ranges[k].from <= ranges[k].to
      ensures rgran == 0 ==> forall k :: 0 <= k < |ranges| ==> ranges[k].to == ranges[k].from
      ensures forall k :: 0 <= k < |ranges| ==> Joined(stamps[..], rgran, ranges[k].from, ranges[k].to)
    {
      hide Valid, Live, Disjoint, Cut, Marked, Covered, Removed, JoinsCalls, JoinsClause;
      ranges := [];
      var from := 0;
      CutNothing(rgran);
      while from < stamps.Length
        invariant from <= stamps.Length && Cut(stamps[..], runs, ranges, from, rgran == 0)
        invariant forall k :: 0 <= k < |ranges| ==> Joined(stamps[..], rgran, ranges[k].from, ranges[k].to)
        decreases stamps.Length - from
      {
        if Reme(from) {
          CutGap(stamps[..], runs, ranges, from, rgran == 0);
          from := from + 1;
        } else {
          var to := RangeEnd(rgran, from);
          CutNext(stamps[..], runs, ranges, from, to, rgran == 0);
          ranges := ranges + [Range(from, to, Never)];
          from := to + 1;
        }
      }
      CutAll(rgran);
      MarkedFresh(ranges, Live(), runs);
    }

    lemma CutNothing(rgran: int)
      ensures Cut(stamps[..], runs, [], 0, rgran == 0)
    {}

    /** All events are cut: what that says about the ranges. */
    lemma CutAll(rgran: int)
      requires Cut(stamps[..], runs, ranges, stamps.Length, rgran == 0)
      ensures Disjoint(ranges, stamps.Length) && Covered(ranges, Live())
      ensures forall k :: 0 <= k < |ranges| ==> ranges[k].removed == Never && ranges[k].from in Live() && ranges[k].from <= ranges[k].to
      ensures rgran == 0 ==> forall k :: 0 <= k < |ranges| ==> ranges[k].to == ranges[k].from
    {
      hide Within;
    }

    // ----- one attempt ------------------------------------------------------------------

    ghost predicate RangesOK()
      reads `ranges, `runs, stamps
    {
      Disjoint(ranges, stamps.Length) && Marked(ranges, Live(), runs)
      && forall k :: 0 <= k < |ranges| && ranges[k].removed.At? ==> ranges[k].removed.run < runs
    }

    /** Stamps the live events of a range with the coming run. */
    method RemoveEvents(from: nat, to: nat)
      requires from <= to < stamps.Length
      modifies stamps
      ensures forall i :: 0 <= i < stamps.Length ==>
                stamps[i] == if from <= i <= to && !old(Removed(stamps[i], runs)) then At(runs) else old(stamps[i])
    {
      for j := from to to + 1
        invariant forall i :: 0 <= i < stamps.Length ==>
                    stamps[i] == if from <= i < j && !old(Removed(stamps[i], runs)) then At(runs) else old(stamps[i])
      {
        if !Reme(j) { stamps[j] := At(runs); }
      }
    }

    /** Takes the stamps of the last run off the events of a range. */
    method RestoreEvents(from: nat, to: nat)
      requires from <= to < stamps.Length && runs > 0
      modifies stamps
      ensures forall i :: 0 <= i < stamps.Length ==>
                stamps[i] == if from <= i <= to && old(stamps[i]) == At(runs - 1) then Never else old(stamps[i])
    {
      for j := from to to + 1
        invariant forall i :: 0 <= i < stamps.Length ==>
                    stamps[i] == if from <= i < j && old(stamps[i]) == At(runs - 1) then Never else old(stamps[i])
      {
        if stamps[j] == At(runs - 1) { stamps[j] := Never; }
      }
    }

    /** The stamps after the events of ranges a to b - 1 are removed. */
    ghost predicate Stamped(was: seq<Stamp>, old_ranges: seq<Range>, a: nat, b: nat)
      requires a <= b <= |old_ranges|
      reads stamps, `ranges, `runs
    {
      && |was| == stamps.Length && |ranges| == |old_ranges|
      && (forall i :: 0 <= i < |was| ==> stamps[i] == if !Removed(was[i], runs) && Within(old_ranges, a, b, i) then At(runs) else was[i])
      && (forall k :: 0 <= k < |ranges| ==>
            ranges[k] == if a <= k < b && !Removed(old_ranges[k].removed, runs) then old_ranges[k].(removed := At(runs)) else old_ranges[k])
    }

    method RemoveRanges(pos: nat, end: nat)
      requires Valid() && RangesOK() && pos <= end <= |ranges|
      modifies stamps, `ranges
      ensures Stamped(old(stamps[..]), old(ranges), pos, end)
    {
      ghost var was, before := stamps[..], ranges;
      ghost var live := Live();
      for i := pos to end
        invariant Stamped(was, before, pos, i)
      {
        var r := ranges[i];
        if Removed(r.removed, runs) {
          RemovedAlready(was, before, pos, i, live);
          continue;
        }
        ranges := ranges[i := r.(removed := At(runs))];
        RemoveEvents(r.from, r.to);
        forall j | 0 <= j < |was|
          ensures stamps[j] == if !Removed(was[j], runs) && Within(before, pos, i + 1, j) then At(runs) else was[j]
        {
          WithinNext(before, pos, i, j);
        }
      }
    }

    lemma RemovedAlready(was: seq<Stamp>, before: seq<Range>, pos: nat, i: nat, live: set<int>)
      requires pos <= i < |before| && Stamped(was, before, pos, i) && Removed(before[i].removed, runs)
      requires Marked(before, live, runs) && forall j :: 0 <= j < |was| ==> (j in live <==> !Removed(was[j], runs))
      ensures Stamped(was, before, pos, i + 1)
    {
      forall j | 0 <= j < |was|
        ensures stamps[j] == if !Removed(was[j], runs) && Within(before, pos, i + 1, j) then At(runs) else was[j]
      {
        WithinNext(before, pos, i, j);
      }
    }

    /** Undoes the removal of the last run, exactly. */
    method RestoreRanges(pos: nat, end: nat, ghost was: seq<Stamp>, ghost before: seq<Range>)
      requires runs > 0 && pos <= end <= |before| && Undone(was, before, pos, pos, end) && Earlier(was, before)
      requires Disjoint(before, stamps.Length)
      modifies stamps, `ranges
      ensures stamps[..] == was && ranges == before
    {
      for i := pos to end
        invariant Undone(was, before, pos, i, end)
      {
        var r := ranges[i];
        if r.removed.At? && r.removed.run < runs - 1 {
          SkipUndone(was, before, pos, i, end);
          continue;
        }
        ranges := ranges[i := r.(removed := Never)];
        RestoreEvents(r.from, r.to);
        forall j | 0 <= j < |was| ensures stamps[j] == if was[j] == Never && Within(before, i + 1, end, j) then At(runs - 1) else was[j] {
          WithinFirst(before, i, end, j);
          if Has(before[i], j) { NotLater(before, stamps.Length, i, end, j); }
        }
      }
      assert stamps[..] == was;
    }

    /** Everything stamped was stamped in an earlier run, and removed ranges hold no live event. */
    ghost predicate Earlier(was: seq<Stamp>, before: seq<Range>)
      reads `runs
    {
      && (forall i :: 0 <= i < |was| && was[i].At? ==> was[i].run + 1 < runs)
      && (forall k :: 0 <= k < |before| && before[k].removed.At? ==> before[k].removed.run + 1 < runs)
      && (forall k, i :: 0 <= k < |before| && 0 <= i < |was| && before[k].removed.At? && Has(before[k], i) ==> was[i].At?)
    }

    /** The removals of the last run are undone in the ranges before i. */
    ghost predicate Undone(was: seq<Stamp>, before: seq<Range>, pos: nat, i: nat, end: nat)
      requires pos <= i <= end <= |before|
      reads stamps, `ranges, `runs
    {
      && runs > 0 && |was| == stamps.Length && |ranges| == |before|
      && (forall j :: 0 <= j < |was| ==> stamps[j] == if was[j] == Never && Within(before, i, end, j) then At(runs - 1) else was[j])
      && (forall k :: 0 <= k < |ranges| ==>
            ranges[k] == if i <= k < end && before[k].removed == Never then before[k].(removed := At(runs - 1)) else before[k])
    }

    lemma SkipUndone(was: seq<Stamp>, before: seq<Range>, pos: nat, i: nat, end: nat)
      requires pos <= i < end <= |before| && Undone(was, before, pos, i, end) && Earlier(was, before) && before[i].removed.At?
      ensures Undone(was, before, pos, i + 1, end)
    {
      forall j | 0 <= j < |was| ensures stamps[j] == if was[j] == Never && Within(before, i + 1, end, j) then At(runs - 1) else was[j] {
        WithinFirst(before, i, end, j);
      }
    }

    /** Runs without the events of a chunk of ranges, and keeps them removed only if the outcome is the golden one. */
    method TryChunk(pos: nat, width: nat, ghost rgran: int)
      requires Valid() && RangesOK() && pos < |ranges| && width > 0
      modifies this, stamps
      ensures Valid() && RangesOK() && runs == old(runs) + 1 && |ranges| == old(|ranges|)
      ensures tried == old(tried) + [Chunk(rgran, pos, width)]
      ensures var end := if pos + width < old(|ranges|) then pos + width else old(|ranges|);
              var rest := Minus(old(Live()), old(ranges), pos, end);
              if outcome(rest) == golden then Live() == rest && changed
              else stamps[..] == old(stamps[..]) && ranges == old(ranges) && Live() == old(Live()) && changed == old(changed)
      ensures forall k :: 0 <= k < |ranges| ==> ranges[k].from == old(ranges)[k].from && ranges[k].to == old(ranges)[k].to
    {
      hide Within, Marked;
      var end := if pos + width < |ranges| then pos + width else |ranges|;
      ghost var was, before, live, q := stamps[..], ranges, Live(), runs;
      EarlierNext(was, before, live, q);
      RemoveRanges(pos, end);
      tried := tried + [Chunk(rgran, pos, width)];
      runs := runs + 1;
      RestIsLive(was, before, live, pos, end, q);
      var res := outcome(Live());
      if res == golden {
        changed := true;
        MarkedRest(was, before, live, pos, end, q);
      } else {
        RestoreRanges(pos, end, was, before);
        MarkedSame(before, live, q, runs);
        assert Live() == live;
      }
    }

    lemma EarlierNext(was: seq<Stamp>, before: seq<Range>, live: set<int>, q: nat)
      requires |was| == stamps.Length && Marked(before, live, q) && forall j :: 0 <= j < |was| ==> (j in live <==> !Removed(was[j], q))
      requires forall i :: 0 <= i < |was| && was[i].At? ==> was[i].run < q
      requires forall k :: 0 <= k < |before| && before[k].removed.At? ==> before[k].removed.run < q
      ensures forall k, i :: 0 <= k < |before| && 0 <= i < |was| && before[k].removed.At? && Has(before[k], i) ==> was[i].At?
    {}

    lemma RestIsLive(was: seq<Stamp>, before: seq<Range>, live: set<int>, pos: nat, end: nat, q: nat)
      requires pos <= end <= |before| && runs == q + 1 && |was| == stamps.Length
      requires forall i :: 0 <= i < |was| ==> stamps[i] == if !Removed(was[i], q) && Within(before, pos, end, i) then At(q) else was[i]
      requires live == set i | 0 <= i < |was| && !Removed(was[i], q)
      requires forall i :: 0 <= i < |was| && was[i].At? ==> was[i].run < q
      ensures Live() == Minus(live, before, pos, end)
    {}

    lemma MarkedRest(was: seq<Stamp>, before: seq<Range>, live: set<int>, pos: nat, end: nat, q: nat)
      requires pos <= end <= |before| && runs == q + 1 && |ranges| == |before|
      requires Disjoint(before, stamps.Length) && Marked(before, live, q) && Live() == Minus(live, before, pos, end)
      requires forall k :: 0 <= k < |before| && before[k].removed.At? ==> before[k].removed.run < q
      requires forall k :: 0 <= k < |ranges| ==>
                 ranges[k] == if pos <= k < end && !Removed(before[k].removed, q) then before[k].(removed := At(q)) else before[k]
      ensures Marked(ranges, Live(), runs)
    {
      forall k | 0 <= k < |ranges|
        ensures Removed(ranges[k].removed, runs) <==> forall i :: i in Live() ==> !Has(ranges[k], i)
      {
        if pos <= k < end {
          forall i ensures Has(before[k], i) ==> Within(before, pos, end, i) {}
        } else {
          forall i | Has(before[k], i) ensures !Within(before, pos, end, i) { NotElsewhere(before, stamps.Length, pos, end, k, i); }
        }
      }
    }

    // ----- one pass, and all passes ---------------------------------------------------------

    /** Since the live events were l, removals have been kept only as changes, and a range that is gone took events with it. */
    ghost predicate Shrunk(l: set<int>)
      reads `ranges, `runs, stamps
    {
      && Live() <= l && (forall k :: 0 <= k < |ranges| ==> Touches(ranges[k], l))
    }

    ghost predicate IsNeeded(l: set<int>, first: seq<Range>, k: nat)
      requires k < |first|
    {
      outcome(Minus(l, first, k, k + 1)) != golden
    }

    /** Each of the first m ranges on its own was needed, when the live events were l. */
    ghost predicate Needed(l: set<int>, first: seq<Range>, m: nat) {
      m <= |first| && forall k :: 0 <= k < m ==> IsNeeded(l, first, k)
    }

    /** Within a pass that began with the live events l and the ranges `first`. */
    ghost predicate InPass(l: set<int>, first: seq<Range>, c0: bool)
      reads this, stamps
    {
      && Valid() && RangesOK() && Shrunk(l) && |ranges| == |first| && (c0 ==> changed)
      && (changed ==> c0 || Live() < l) && (!changed ==> Live() == l && ranges == first)
    }

    /** One attempt within a pass. If it succeeds, some live event has gone since the pass began. */
    method Attempt(pos: nat, width: nat, ghost rgran: int, ghost l: set<int>, ghost first: seq<Range>, ghost c0: bool)
      requires InPass(l, first, c0) && pos < |ranges| && width > 0
      modifies this, stamps
      ensures InPass(l, first, c0) && (old(changed) ==> changed) && |ranges| == old(|ranges|)
      ensures !changed && width == 1 ==> IsNeeded(l, first, pos)
      ensures tried == old(tried) + [Chunk(rgran, pos, width)]
    {
      ghost var live, before := Live(), ranges;
      TryChunk(pos, width, rgran);
      assert forall k, i :: 0 <= k < |ranges| && Has(before[k], i) ==> Has(ranges[k], i);
      forall k | 0 <= k < |ranges| ensures Touches(ranges[k], l) { assert Touches(before[k], l); }
      assert Live() <= live;
      if Live() == live && changed && !old(changed) {
        GoneRange(before, live, l, pos, if pos + width < |before| then pos + width else |before|);
      }
    }

    /** Attempts on all chunks of one width. */
    method Sweep(width: nat, ghost rgran: int, ghost l: set<int>, ghost first: seq<Range>, ghost c0: bool)
      requires InPass(l, first, c0) && width > 0
      modifies this, stamps
      ensures InPass(l, first, c0) && (old(changed) ==> changed) && |ranges| == old(|ranges|)
      ensures !changed && width == 1 ==> Needed(l, first, |ranges|)
      ensures tried == old(tried) + ChunksOf(rgran, 0, width, |ranges|)
    {
      hide InPass, IsNeeded;
      FirstSize(l, first, c0);
      var pos := 0;
      while pos < |ranges|
        invariant InPass(l, first, c0) && |ranges| == old(|ranges|) == |first| && pos <= |ranges| + width && (old(changed) ==> changed)
        invariant !changed && width == 1 ==> pos <= |first| && Needed(l, first, pos)
        invariant tried + ChunksOf(rgran, pos, width, |first|) == old(tried) + ChunksOf(rgran, 0, width, |first|)
      {
        Attempt(pos, width, rgran, l, first, c0);
        pos := pos + width;
      }
    }

    lemma FirstSize(l: set<int>, first: seq<Range>, c0: bool)
      requires InPass(l, first, c0)
      ensures |ranges| == |first|
    {}

    /** If taking out a chunk leaves everything live, its ranges were gone before. */
    lemma GoneRange(before: seq<Range>, live: set<int>, l: set<int>, pos: nat, end: nat)
      requires pos < end <= |before| && Minus(live, before, pos, end) == live && live <= l && Touches(before[pos], l)
      ensures live < l
    {
      var i :| i in l && Has(before[pos], i);
      assert Within(before, pos, end, i);
      assert i !in live;
    }

    /** Tries chunks of a granularity, from half of all ranges down to single ones. */
    method Pass(rgran: int)
      requires Valid()
      modifies this, stamps
      ensures Valid() && Live() <= old(Live()) && (old(changed) ==> changed)
      ensures changed ==> old(changed) || Live() < old(Live())
      ensures !changed ==> Live() == old(Live())
      ensures !changed && rgran == 0 && |Live()| >= 2 ==> Minimal()
      ensures tried == old(tried) + PassOf(rgran, |ranges|)
    {
      hide RangesOK, Disjoint, Marked, Covered, Needed;
      ghost var l, c0 := Live(), changed;
      MakeRanges(rgran);
      RangesFresh();
      StartsShrunk(l);
      ghost var first := ranges;
      var nranges := |ranges|;
      assert InPass(l, first, c0);
      var width := nranges / 2;
      while width > 0
        invariant InPass(l, first, c0) && |ranges| == nranges && 0 <= width <= nranges / 2
        invariant !changed && width == 0 && nranges >= 2 ==> Needed(l, first, nranges)
        invariant tried + WidthsOf(rgran, width, nranges) == old(tried) + PassOf(rgran, nranges)
      {
        Sweep(width, rgran, l, first, c0);
        width := if width > 4 then width / 2 else width - 1;
      }
      if !changed && rgran == 0 && |l| >= 2 {
        AtLeastTwo(l, first);
        NeededMinimal(l, first);
      }
    }

    lemma RangesFresh()
      requires Disjoint(ranges, stamps.Length) && Marked(ranges, Live(), runs)
      requires forall k :: 0 <= k < |ranges| ==> ranges[k].removed == Never
      ensures RangesOK()
    {}

    /** No single live event can be left out. */
    ghost predicate Minimal()
      reads stamps, `runs
    {
      forall i :: i in Live() ==> outcome(Live() - {i}) != golden
    }

    lemma StartsShrunk(l: set<int>)
      requires Live() == l && forall k :: 0 <= k < |ranges| ==> ranges[k].from <= ranges[k].to && ranges[k].from in l
      ensures Shrunk(l)
    {
      forall k | 0 <= k < |ranges| ensures Touches(ranges[k], l) { assert Has(ranges[k], ranges[k].from); }
    }

    /** Two live events need two single ranges. */
    lemma AtLeastTwo(l: set<int>, first: seq<Range>)
      requires Covered(first, l) && |l| >= 2 && forall k :: 0 <= k < |first| ==> first[k].to == first[k].from
      ensures |first| >= 2
    {
      var i := Pick(l);
      SubsetSize(l, {i});
      var j := PickOther(l, {i});
      var k :| 0 <= k < |first| && Has(first[k], i);
      var m :| 0 <= m < |first| && Has(first[m], j);
    }

    lemma NeededMinimal(l: set<int>, first: seq<Range>)
      requires Live() == l && ranges == first && Covered(first, l) && Needed(l, first, |first|)
      requires forall k :: 0 <= k < |first| ==> first[k].to == first[k].from
      ensures Minimal()
    {
      forall i | i in l ensures outcome(l - {i}) != golden {
        var k :| 0 <= k < |first| && Has(first[k], i);
        assert IsNeeded(l, first, k);
        OneGone(l, first, k, i);
      }
    }

    /** Passes over all granularities until nothing changes any more. */
    method Dd() returns (ghost sizes: seq<(nat, nat, nat)>)
      requires Valid()
      modifies this, stamps
      ensures Valid() && Live() <= old(Live()) && (|Live()| >= 2 ==> Minimal())
      ensures sizes != [] && tried == old(tried) + RoundsOf(sizes)
    {
      hide PassOf, RoundsOf, Minimal, Live, Valid;
      sizes := [];
      NoRounds(tried);
      changed := true;
      while changed
        invariant Valid() && Live() <= old(Live()) && (!changed && |Live()| >= 2 ==> Minimal())
        invariant (sizes == [] ==> changed) && tried == old(tried) + RoundsOf(sizes)
        decreases |Live()|, if changed then 1 else 0
      {
        ghost var l := Live();
        ghost var s := Round();
        OneRound(sizes, s);
        sizes := sizes + [s];
        if changed { Smaller(Live(), l); }
      }
    }

    /** One pass over each granularity. */
    method Round() returns (ghost s: (nat, nat, nat))
      requires Valid()
      modifies this, stamps
      ensures Valid() && Live() <= old(Live()) && (changed ==> Live() < old(Live()))
      ensures !changed ==> Live() == old(Live()) && (|Live()| >= 2 ==> Minimal())
      ensures tried == old(tried) + (PassOf(2, s.0) + PassOf(1, s.1) + PassOf(0, s.2))
    {
      hide PassOf, Minimal, Live, Valid;
      changed := false;
      Pass(2);
      ghost var a := |ranges|;
      Pass(1);
      ghost var b := |ranges|;
      Pass(0);
      s := (a, b, |ranges|);
    }
  }

  lemma NoRounds(tried: seq<Chunk>)
    ensures tried == tried + RoundsOf([])
  {}

  lemma OneRound(sizes: seq<(nat, nat, nat)>, s: (nat, nat, nat))
    ensures RoundsOf(sizes + [s]) == RoundsOf(sizes) + (PassOf(2, s.0) + PassOf(1, s.1) + PassOf(0, s.2))
  {
    assert (sizes + [s])[..|sizes|] == sizes;
  }

  ghost predicate Touches(r: Range, l: set<int>) {
    exists i :: i in l && Has(r, i)
  }

  lemma OneGone(l: set<int>, ranges: seq<Range>, k: nat, i: int)
    requires k < |ranges| && ranges[k].from == ranges[k].to == i
    ensures Minus(l, ranges, k, k + 1) == l - {i}
  {
    assert Has(ranges[k], i);
  }

  lemma Pick<T>(s: set<T>) returns (x: T)
    requires |s| > 0
    ensures x in s
  {
    x :| x in s;
  }

  lemma PickOther<T>(s: set<T>, t: set<T>) returns (x: T)
    requires !(s <= t)
    ensures x in s && x !in t
  {
    x :| x in s && x !in t;
  }

  lemma Smaller<T>(a: set<T>, b: set<T>)
    requires a < b
    ensures |a| < |b|
  {
    var x := PickOther(b, a);
    SubsetSize(a, b - {x});
  }

  lemma WithinMore(ranges: seq<Range>, r: Range, i: int)
    ensures Within(ranges + [r], 0, |ranges| + 1, i) <==> Within(ranges, 0, |ranges|, i) || Has(r, i)
  {
    var t := ranges + [r];
    if Within(ranges, 0, |ranges|, i) {
      var k :| 0 <= k < |ranges| && Has(ranges[k], i);
      assert Has(t[k], i);
    }
    if Has(r, i) { assert Has(t[|ranges|], i); }
    if Within(t, 0, |t|, i) && !Has(r, i) {
      var k :| 0 <= k < |t| && Has(t[k], i);
      assert Has(ranges[k], i);
    }
  }

  lemma WithinNext(ranges: seq<Range>, a: nat, b: nat, i: int)
    requires a <= b < |ranges|
    ensures Within(ranges, a, b + 1, i) <==> Within(ranges, a, b, i) || Has(ranges[b], i)
  {
    if Within(ranges, a, b + 1, i) && !Has(ranges[b], i) {
      var k :| a <= k < b + 1 && Has(ranges[k], i);
      assert k < b;
    }
  }

  lemma WithinFirst(ranges: seq<Range>, a: nat, b: nat, i: int)
    requires a < b <= |ranges|
    ensures Within(ranges, a, b, i) <==> Within(ranges, a + 1, b, i) || Has(ranges[a], i)
  {
    if Within(ranges, a, b, i) && !Has(ranges[a], i) {
      var k :| a <= k < b && Has(ranges[k], i);
      assert k > a;
    }
  }

  lemma NotLater(ranges: seq<Range>, n: nat, a: nat, b: nat, i: int)
    requires Disjoint(ranges, n) && a < b <= |ranges| && Has(ranges[a], i)
    ensures !Within(ranges, a + 1, b, i)
  {}

  lemma NotElsewhere(ranges: seq<Range>, n: nat, a: nat, b: nat, k: nat, i: int)
    requires Disjoint(ranges, n) && a <= b <= |ranges| && k < |ranges| && (k < a || b <= k) && Has(ranges[k], i)
    ensures !Within(ranges, a, b, i)
  {}

  lemma MarkedSame(ranges: seq<Range>, live: set<int>, q: nat, r: nat)
    requires Marked(ranges, live, q) && q <= r
    requires forall k :: 0 <= k < |ranges| && ranges[k].removed.At? ==> ranges[k].removed.run < q
    ensures Marked(ranges, live, r)
  {}

  /** The events before `from` are cut into ranges, each of which begins with a live event. */
  ghost predicate Cut(stamps: seq<Stamp>, runs: nat, ranges: seq<Range>, from: nat, single: bool) {
    && from <= |stamps| && Disjoint(ranges, |stamps|)
    && (forall k :: 0 <= k < |ranges| ==> CutRange(stamps, runs, ranges[k], from, single))
    && (forall i :: 0 <= i < from && !Removed(stamps[i], runs) ==> Within(ranges, 0, |ranges|, i))
  }

  ghost predicate CutRange(stamps: seq<Stamp>, runs: nat, r: Range, from: nat, single: bool) {
    r.from <= r.to < from <= |stamps| && r.removed == Never && !Removed(stamps[r.from], runs) && (single ==> r.to == r.from)
  }

  lemma CutGap(stamps: seq<Stamp>, runs: nat, ranges: seq<Range>, from: nat, single: bool)
    requires Cut(stamps, runs, ranges, from, single) && from < |stamps| && Removed(stamps[from], runs)
    ensures Cut(stamps, runs, ranges, from + 1, single)
  {
    hide Within, Disjoint;
  }

  lemma CutNext(stamps: seq<Stamp>, runs: nat, ranges: seq<Range>, from: nat, to: nat, single: bool)
    requires Cut(stamps, runs, ranges, from, single) && from <= to < |stamps| && !Removed(stamps[from], runs) && (single ==> to == from)
    ensures Cut(stamps, runs, ranges + [Range(from, to, Never)], to + 1, single)
  {
    var r, t := Range(from, to, Never), ranges + [Range(from, to, Never)];
    forall i | 0 <= i <= to && !Removed(stamps[i], runs) ensures Within(t, 0, |t|, i) {
      WithinMore(ranges, r, i);
    }
    hide Within;
    assert forall k :: 0 <= k < |ranges| ==> t[k] == ranges[k];
  }

  lemma MarkedFresh(ranges: seq<Range>, live: set<int>, runs: nat)
    requires forall k :: 0 <= k < |ranges| ==> ranges[k].removed == Never && ranges[k].from in live && ranges[k].from <= ranges[k].to
    ensures Marked(ranges, live, runs)
  {
    forall k | 0 <= k < |ranges| ensures exists i :: i in live && Has(ranges[k], i) { assert Has(ranges[k], ranges[k].from); }
  }
}
