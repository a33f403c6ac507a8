/** The counters and their peaks when one thread at a time allocates memory. */
module AllocationPeaks {
  import opened Text
  import opened Int32
  import opened AllocationCounting

  /** Raises the peaks to the current values. */
  function Raised(c: Counters): Counters
  {
    var total := Wrap(c.nowUsable + c.nowOverhead);
    c.(peakUsable := if c.nowUsable > c.peakUsable then c.nowUsable else c.peakUsable,
       peakTotal := if total > c.peakTotal then total else c.peakTotal)
  }

  /** What a whole call does that changes the true amounts by `usable` and `overhead`. */
  function Counted(c: Counters, usable: int, overhead: int): Counters
  {
    Raised(c.(nowUsable := Wrap(c.nowUsable + usable), nowOverhead := Wrap(c.nowOverhead + overhead)))
  }

  function TotalNow(c: Counters): int { Wrap(c.nowUsable + c.nowOverhead) }

  predicate InRange(c: Counters) { Fits(c.nowUsable) && Fits(c.nowOverhead) && Fits(c.peakUsable) && Fits(c.peakTotal) }

  predicate IsMaximum(peak: int, values: seq<int>)
  {
    peak in values && forall i :: 0 <= i < |values| ==> values[i] <= peak
  }

  lemma {:induction false} RaisedIsMaximum(c: Counters, usables: seq<int>, totals: seq<int>)
    requires IsMaximum(c.peakUsable, usables) && IsMaximum(c.peakTotal, totals)
    ensures IsMaximum(Raised(c).peakUsable, usables + [c.nowUsable])
    ensures IsMaximum(Raised(c).peakTotal, totals + [TotalNow(c)])
    ensures Raised(c).nowUsable == c.nowUsable && Raised(c).nowOverhead == c.nowOverhead
    ensures InRange(c) ==> InRange(Raised(c))
  {
    MaximumAppend(c.peakUsable, usables, c.nowUsable);
    MaximumAppend(c.peakTotal, totals, TotalNow(c));
  }

  lemma {:induction false} MaximumAppend(peak: int, values: seq<int>, value: int)
    requires IsMaximum(peak, values)
    ensures IsMaximum(if value > peak then value else peak, values + [value])
  {
    assert (values + [value])[|values|] == value;
    assert forall i :: 0 <= i < |values| ==> (values + [value])[i] == values[i];
  }

  class TestMalloc {
    var nowUsable: int
    var nowOverhead: int
    var peakUsable: int
    var peakTotal: int

    /** The values after every call since the peaks were last reset. */
    ghost var usables: seq<int>
    ghost var totals: seq<int>

    function Now(): Counters
      reads this
    {
      Counters(nowUsable, nowOverhead, peakUsable, peakTotal)
    }

    /** Each peak is the maximum of the values since the last reset. */
    ghost predicate Valid()
      reads this
    {
      && InRange(Now())
      && nowUsable in usables && TotalNow(Now()) in totals
      && IsMaximum(peakUsable, usables) && IsMaximum(peakTotal, totals)
    }

    /** `initial` are the bytes in use when counting begins. */
    constructor (initial: int)
      ensures Valid() && usables == [Wrap(initial)] && Now() == Counters(Wrap(initial), 0, Wrap(initial), Wrap(initial))
    {
      nowUsable, nowOverhead := Wrap(initial), 0;
      peakUsable, peakTotal := Wrap(initial), Wrap(initial);
      usables, totals := [Wrap(initial)], [Wrap(initial)];
    }

    method UpdatePeak()
      modifies this`peakUsable, this`peakTotal
      ensures Now() == old(Raised(Now()))
    {
      if nowUsable > peakUsable {
        peakUsable := nowUsable;
      }
      if Wrap(nowUsable + nowOverhead) > peakTotal {
        peakTotal := Wrap(nowUsable + nowOverhead);
      }
    }

    /** The part that all calls share: adding to the counters and following with the peaks. */
    method Count(usable: int, overhead: int)
      requires Valid()
      modifies this
      ensures Valid()
      ensures Now() == old(Counted(Now(), usable, overhead))
      ensures usables == old(usables) + [nowUsable] && totals == old(totals) + [TotalNow(Now())]
    {
      hide Wrap, FetchAndAdd, AsSize, IsMaximum, Raised;
      AddDifference(nowUsable, usable);
      AddDifference(nowOverhead, overhead);
      nowUsable := FetchAndAdd(nowUsable, AsSize(usable));
      if overhead != 0 {
        nowOverhead := FetchAndAdd(nowOverhead, AsSize(overhead));
      }
      RaisedIsMaximum(Now(), usables, totals);
      UpdatePeak();
      usables, totals := usables + [nowUsable], totals + [TotalNow(Now())];
    }

    /** `out` is the usable size of the block that the C library returns, if it does. */
    method Malloc(out: Option<nat>)
      requires Valid()
      modifies this
      ensures Valid()
      ensures Now() == if out.Some? then old(Counted(Now(), out.value, CHUNK_OVERHEAD)) else old(Now())
      ensures usables == if out.Some? then old(usables) + [nowUsable] else old(usables)
      ensures totals == if out.Some? then old(totals) + [TotalNow(Now())] else old(totals)
    {
      if out.Some? {
        Count(out.value, CHUNK_OVERHEAD);
      }
    }

    /** `before` and `out` are the usable sizes of the block passed and of the one returned. */
    method Realloc(before: Option<nat>, out: Option<nat>)
      requires Valid()
      modifies this
      ensures Valid()
      ensures var oldSize, size := SizeOf(before), SizeOf(out);
              Now() == old(Counted(Now(), size - oldSize, if oldSize == 0 then CHUNK_OVERHEAD else 0))
      ensures usables == old(usables) + [nowUsable] && totals == old(totals) + [TotalNow(Now())]
    {
      var oldSize := SizeOf(before);
      Count(SizeOf(out) - oldSize, if oldSize == 0 then CHUNK_OVERHEAD else 0);
    }

    method Free(before: Option<nat>)
      requires Valid()
      modifies this
      ensures Valid()
      ensures var oldSize := SizeOf(before);
              Now() == if oldSize == 0 then old(Now()) else old(Counted(Now(), 0 - oldSize, 0 - CHUNK_OVERHEAD))
      ensures usables == if SizeOf(before) == 0 then old(usables) else old(usables) + [nowUsable]
      ensures totals == if SizeOf(before) == 0 then old(totals) else old(totals) + [TotalNow(Now())]
    {
      if SizeOf(before) != 0 {
        Count(0 - SizeOf(before), 0 - CHUNK_OVERHEAD);
      }
    }

    /** The peaks start anew, whatever they were. */
    method ResetPeak()
      requires InRange(Now())
      modifies this
      ensures Valid()
      ensures usables == [nowUsable] && totals == [TotalNow(Now())]
      ensures Now() == Counters(old(nowUsable), old(nowOverhead), old(nowUsable), TotalNow(old(Now())))
    {
      peakUsable := nowUsable;
      peakTotal := Wrap(nowUsable + nowOverhead);
      usables, totals := [nowUsable], [peakTotal];
    }

    /** Sets the counters to zero. The peaks do not follow: if they were maxima, they stay so only
        if they had not been below zero. */
    method ResetNow()
      modifies this
      ensures Now() == Counters(0, 0, old(peakUsable), old(peakTotal))
      ensures usables == old(usables) + [0] && totals == old(totals) + [0]
      ensures old(Valid()) ==> (Valid() <==> old(peakUsable) >= 0 && old(peakTotal) >= 0)
    {
      nowUsable := 0;
      nowOverhead := 0;
      usables, totals := usables + [0], totals + [0];
      assert usables[|usables| - 1] == 0 && totals[|totals| - 1] == 0;
    }
  }

  function SizeOf(block: Option<nat>): nat
  {
    if block.Some? then block.value else 0
  }

  /** The counters are set to zero and then the peaks are reset, whatever they were. */
  method StartMeasuring(d: TestMalloc)
    requires InRange(d.Now())
    modifies d
    ensures d.Valid() && d.Now() == Counters(0, 0, 0, 0)
    ensures d.usables == [0] && d.totals == [0]
  {
    d.ResetNow();
    d.ResetPeak();
  }

  // ----- the steps of one thread that is not interrupted

  function StepsLeft(pc: Pc): nat
  {
    match pc
    case Idle => 0
    case PeakTotalStore(_, _) => 1
    case PeakTotalOverheadAgain(_) => 2
    case PeakTotalAgain => 3
    case PeakTotalCompare(_, _) => 4
    case PeakTotalOverhead(_) => 5
    case PeakTotal => 6
    case PeakUsableStore(_, _) => 7
    case PeakUsableAgain => 8
    case PeakUsableCompare(_) => 9
    case PeakUsable => 10
    case AddOverhead(_) => 11
    case AddUsable(_, _) => 12
    case _ => 13
  }

  ghost function Alone(s: State, t: nat): State
    requires t < |s.pcs| && !s.pcs[t].Realloc?
    decreases StepsLeft(s.pcs[t])
  {
    if s.pcs[t].Idle? then s else Alone(Continue(s, t), t)
  }

  lemma {:induction false} Onward(s: State, t: nat)
    requires t < |s.pcs| && !s.pcs[t].Realloc? && !s.pcs[t].Idle?
    ensures |Continue(s, t).pcs| == |s.pcs| && !Continue(s, t).pcs[t].Realloc?
    ensures Alone(s, t) == Alone(Continue(s, t), t)
  {}

  lemma {:induction false} AloneTotalStored(s: State, t: nat)
    requires t < |s.pcs| && s.pcs[t] == PeakTotalAgain
    ensures Alone(s, t).counters == s.counters.(peakTotal := TotalNow(s.counters))
  {
    hide Wrap;
    Onward(s, t);
    var s1 := Continue(s, t);
    assert s1.pcs[t] == PeakTotalOverheadAgain(s.counters.nowUsable) && s1.counters == s.counters;
    Onward(s1, t);
    var s2 := Continue(s1, t);
    assert s2.pcs[t] == PeakTotalStore(s.counters.nowUsable, s.counters.nowOverhead) && s2.counters == s.counters;
    Onward(s2, t);
    assert Continue(s2, t).pcs[t] == Idle;
  }

  lemma {:induction false} AloneTotal(s: State, t: nat)
    requires t < |s.pcs| && s.pcs[t] == PeakTotal
    ensures Alone(s, t).counters == s.counters.(peakTotal :=
              if TotalNow(s.counters) > s.counters.peakTotal then TotalNow(s.counters) else s.counters.peakTotal)
  {
    hide Wrap;
    Onward(s, t);
    var s1 := Continue(s, t);
    assert s1.pcs[t] == PeakTotalOverhead(s.counters.nowUsable) && s1.counters == s.counters;
    Onward(s1, t);
    var s2 := Continue(s1, t);
    assert s2.pcs[t] == PeakTotalCompare(s.counters.nowUsable, s.counters.nowOverhead) && s2.counters == s.counters;
    Onward(s2, t);
    var s3 := Continue(s2, t);
    assert s3.counters == s.counters;
    if TotalNow(s.counters) > s.counters.peakTotal {
      assert s3.pcs[t] == PeakTotalAgain;
      AloneTotalStored(s3, t);
    } else {
      assert s3.pcs[t] == Idle;
    }
  }

  lemma {:induction false} AloneUsable(s: State, t: nat)
    requires t < |s.pcs| && s.pcs[t] == PeakUsable
    ensures Alone(s, t).counters == Raised(s.counters)
  {
    hide Wrap;
    Onward(s, t);
    var s1 := Continue(s, t);
    assert s1.pcs[t] == PeakUsableCompare(s.counters.nowUsable) && s1.counters == s.counters;
    Onward(s1, t);
    var s2 := Continue(s1, t);
    assert s2.counters == s.counters;
    if s.counters.nowUsable > s.counters.peakUsable {
      assert s2.pcs[t] == PeakUsableAgain;
      Onward(s2, t);
      var s3 := Continue(s2, t);
      assert s3.pcs[t] == PeakUsableStore(s.counters.nowUsable, false) && s3.counters == s.counters;
      Onward(s3, t);
      var s4 := Continue(s3, t);
      assert s4.pcs[t] == PeakTotal && s4.counters == s.counters.(peakUsable := s.counters.nowUsable);
      AloneTotal(s4, t);
    } else {
      assert s2.pcs[t] == PeakTotal;
      AloneTotal(s2, t);
    }
  }

  /** A thread that is not interrupted counts like the class above. */
  lemma {:induction false} AloneCounts(s: State, t: nat)
    requires t < |s.pcs| && s.pcs[t].AddUsable?
    requires Fits(s.counters.nowUsable) && Fits(s.counters.nowOverhead)
    ensures Alone(s, t).counters == Counted(s.counters, s.pcs[t].usable, s.pcs[t].overhead)
  {
    hide AsSize, FetchAndAdd, Raised;
    var c, usable, overhead := s.counters, s.pcs[t].usable, s.pcs[t].overhead;
    AddDifference(c.nowUsable, usable);
    AddDifference(c.nowOverhead, overhead);
    var c1 := c.(nowUsable := Wrap(c.nowUsable + usable));
    var c2 := c1.(nowOverhead := Wrap(c.nowOverhead + overhead));
    Onward(s, t);
    var s1 := Continue(s, t);
    assert s1.counters == c1;
    if overhead == 0 {
      assert s1.pcs[t] == PeakUsable && c1 == c2;
      AloneUsable(s1, t);
    } else {
      assert s1.pcs[t] == AddOverhead(overhead);
      Onward(s1, t);
      var s2 := Continue(s1, t);
      assert s2.pcs[t] == PeakUsable && s2.counters == c2;
      AloneUsable(s2, t);
    }
  }

  /** Behind the heap and in front of nothing else than counters. */
  predicate OnlyCounts(pc: Pc) { !pc.Free? && !pc.Realloc? && !pc.ResetOverhead? }

  lemma {:induction false} CountingStep(s: State, t: nat)
    requires t < |s.pcs| && OnlyCounts(s.pcs[t]) && !s.pcs[t].Idle?
    ensures var next := Continue(s, t);
            && next.heap == s.heap && |next.pcs| == |s.pcs| && next.pcs == s.pcs[t := next.pcs[t]]
            && OnlyCounts(next.pcs[t]) && StepsLeft(next.pcs[t]) < StepsLeft(s.pcs[t])
            && next.truth.baseUsable == s.truth.baseUsable && next.truth.baseOverhead == s.truth.baseOverhead
            && next.truth.lost == s.truth.lost && next.truth.extra == s.truth.extra
  {
    hide Total, Pending, Overhead, FetchAndAdd, AsSize, Wrap;
  }

  /** Counting touches neither the heap nor another thread. */
  lemma {:induction false} AloneKeeps(s: State, t: nat)
    requires t < |s.pcs| && OnlyCounts(s.pcs[t])
    ensures var end := Alone(s, t);
            && end.heap == s.heap && end.pcs == s.pcs[t := Idle]
            && end.truth.baseUsable == s.truth.baseUsable && end.truth.baseOverhead == s.truth.baseOverhead
            && end.truth.lost == s.truth.lost && end.truth.extra == s.truth.extra
    decreases StepsLeft(s.pcs[t])
  {
    hide Continue;
    if !s.pcs[t].Idle? {
      CountingStep(s, t);
      AloneKeeps(Continue(s, t), t);
    } else {
      assert s.pcs[t := Idle] == s.pcs;
    }
  }

  lemma {:induction false} AllocBegins(s: State, t: nat, block: int, size: nat)
    requires Enabled(s, t, CallAlloc(block, size))
    ensures var next := Next(s, t, CallAlloc(block, size));
            && next.heap == s.heap[block := size] && next.counters == s.counters
            && next.pcs == s.pcs[t := AddUsable(size, 16)]
  {}

  /** An allocation that is not interrupted. */
  lemma {:induction false} AllocAlone(s: State, t: nat, block: int, size: nat)
    requires Enabled(s, t, CallAlloc(block, size)) && InRange(s.counters)
    ensures var next := Next(s, t, CallAlloc(block, size));
            && |next.pcs| == |s.pcs| && !next.pcs[t].Realloc?
            && var end := Alone(next, t);
               end.heap == s.heap[block := size] && end.pcs == s.pcs && end.counters == Counted(s.counters, size, 16)
  {
    hide Alone, Counted, Next, Enabled;
    IdleCalls(s, t, CallAlloc(block, size));
    AllocBegins(s, t, block, size);
    var next := Next(s, t, CallAlloc(block, size));
    AloneKeeps(next, t);
    AloneCounts(next, t);
    assert s.pcs[t := AddUsable(size, 16)][t := Idle] == s.pcs;
  }

  lemma {:induction false} IdleCalls(s: State, t: nat, a: Action)
    requires Enabled(s, t, a)
    ensures t < |s.pcs|
    ensures a.CallAlloc? || a.CallFree? || a.CallRealloc? || a.CallResetNow? || a.CallResetPeak? ==> s.pcs[t] == Idle
  {}

  lemma {:induction false} FreeBegins(s: State, t: nat, block: int)
    requires Enabled(s, t, CallFree(block))
    ensures block in s.heap
    ensures var next := Next(s, t, CallFree(block));
            && next.pcs == s.pcs[t := Free(block, s.heap[block])] && next.counters == s.counters && next.heap == s.heap
            && var freed := Continue(next, t);
               && freed.heap == s.heap - {block} && freed.counters == s.counters
               && freed.pcs == s.pcs[t := AddUsable(0 - (s.heap[block] as int), -16)]
  {
    var next := Next(s, t, CallFree(block));
    var freed := Continue(next, t);
    assert freed.pcs == s.pcs[t := AddUsable(0 - (s.heap[block] as int), -16)];
  }

  /** So does a block go away. */
  lemma {:induction false} FreeAlone(s: State, t: nat, block: int)
    requires Enabled(s, t, CallFree(block)) && InRange(s.counters)
    ensures var next := Next(s, t, CallFree(block));
            && block in s.heap && |next.pcs| == |s.pcs| && !next.pcs[t].Realloc?
            && var end := Alone(next, t);
               && end.heap == s.heap - {block} && end.pcs == s.pcs
               && end.counters == Counted(s.counters, 0 - (s.heap[block] as int), -16)
  {
    hide Alone, Counted, Next, Enabled, Continue;
    IdleCalls(s, t, CallFree(block));
    FreeBegins(s, t, block);
    var next := Next(s, t, CallFree(block));
    Onward(next, t);
    var freed := Continue(next, t);
    AloneKeeps(freed, t);
    AloneCounts(freed, t);
    assert s.pcs[t := freed.pcs[t]][t := Idle] == s.pcs;
  }

  /** What the C library does to the heap, and the size of the block that it returns. */
  function Moved(heap: Heap, target: Option<int>, a: Action): Heap
  {
    match a
    case Succeed(block, size) => (if target.Some? then heap - {target.value} else heap)[block := size]
    case Release => if target.Some? then heap - {target.value} else heap
    case _ => heap
  }

  function NewSize(a: Action): nat { if a.Succeed? then a.size else 0 }

  lemma {:induction false} ReallocBegins(s: State, t: nat, target: Option<int>)
    requires Enabled(s, t, CallRealloc(target))
    ensures target.Some? ==> target.value in s.heap
    ensures var next, oldSize := Next(s, t, CallRealloc(target)), if target.Some? then s.heap[target.value] else 0;
            next.heap == s.heap && next.counters == s.counters && next.pcs == s.pcs[t := Realloc(target, oldSize)]
  {}

  lemma {:induction false} ReallocMoves(s: State, t: nat, a: Action)
    requires Enabled(s, t, a) && s.pcs[t].Realloc?
    ensures var next, oldSize := Next(s, t, a), s.pcs[t].oldSize;
            && next.heap == Moved(s.heap, s.pcs[t].target, a) && next.counters == s.counters
            && next.pcs == s.pcs[t := AddUsable(NewSize(a) - oldSize, if oldSize == 0 then 16 else 0)]
  {
    hide Total, Pending, Overhead, FetchAndAdd, AsSize, Wrap, Continue;
  }

  /** A reallocation that is not interrupted, whatever the C library does in it. */
  lemma {:induction false} ReallocAlone(s: State, t: nat, target: Option<int>, a: Action)
    requires Enabled(s, t, CallRealloc(target)) && Enabled(Next(s, t, CallRealloc(target)), t, a)
    requires InRange(s.counters)
    ensures target.Some? ==> target.value in s.heap
    ensures var next := Next(Next(s, t, CallRealloc(target)), t, a);
            && |next.pcs| == |s.pcs| && !next.pcs[t].Realloc?
            && var end, oldSize := Alone(next, t), if target.Some? then s.heap[target.value] else 0;
               && end.heap == Moved(s.heap, target, a) && end.pcs == s.pcs
               && end.counters == Counted(s.counters, NewSize(a) - oldSize, if oldSize == 0 then 16 else 0)
  {
    hide Alone, Counted, Next, Enabled, Moved;
    IdleCalls(s, t, CallRealloc(target));
    ReallocBegins(s, t, target);
    var called := Next(s, t, CallRealloc(target));
    ReallocMoves(called, t, a);
    var next := Next(called, t, a);
    AloneKeeps(next, t);
    AloneCounts(next, t);
    assert s.pcs[t := called.pcs[t]][t := next.pcs[t]][t := Idle] == s.pcs;
  }

  /** One thread, nothing allocated, nothing counted. */
  const EMPTY: State := State(map[], [Idle], Counters(0, 0, 0, 0), Truth(0, 0, 0, 0, {0}, {0}))

  /** The thread has allocated one block of 100 bytes. */
  lemma {:induction false} OneBlock() returns (s: State)
    ensures Enabled(EMPTY, 0, CallAlloc(1, 100))
    ensures var next := Next(EMPTY, 0, CallAlloc(1, 100)); |next.pcs| == 1 && !next.pcs[0].Realloc? && s == Alone(next, 0)
    ensures s.heap == map[1 := 100] && s.pcs == [Idle] && s.counters.nowUsable == 100 && s.counters.nowOverhead == 16
    ensures InRange(s.counters)
  {
    hide Alone, Raised;
    AllocAlone(EMPTY, 0, 1, 100);
    s := Alone(Next(EMPTY, 0, CallAlloc(1, 100)), 0);
    RaisedKeeps(EMPTY.counters.(nowUsable := 100, nowOverhead := 16));
  }

  lemma {:induction false} RaisedKeeps(c: Counters)
    requires InRange(c)
    ensures Raised(c).nowUsable == c.nowUsable && Raised(c).nowOverhead == c.nowOverhead && InRange(Raised(c))
  {}

  /** When reallocating that block fails, it is still there, and no longer counted. When that frees
      it, its overhead is still counted. */
  lemma {:induction false} ReallocMisleads() returns (s: State)
    ensures s.heap == map[1 := 100] && s.pcs == [Idle] && s.counters.nowUsable == 100 && s.counters.nowOverhead == 16
    ensures Enabled(s, 0, CallRealloc(Some(1)))
    ensures var called := Next(s, 0, CallRealloc(Some(1)));
            && Enabled(called, 0, Fail) && Enabled(called, 0, Release)
            && var failed, freed := Next(called, 0, Fail), Next(called, 0, Release);
               && |failed.pcs| == |freed.pcs| == 1 && !failed.pcs[0].Realloc? && !freed.pcs[0].Realloc?
               && Alone(failed, 0).heap == map[1 := 100] && Alone(failed, 0).counters.nowUsable == 0
               && Alone(freed, 0).heap == map[] && Alone(freed, 0).counters.nowOverhead == 16
  {
    hide Alone, Raised, Next;
    s := OneBlock();
    ReallocBegins(s, 0, Some(1));
    var c := s.counters;
    ReallocAlone(s, 0, Some(1), Fail);
    ReallocAlone(s, 0, Some(1), Release);
    RaisedKeeps(c.(nowUsable := 0, nowOverhead := 16));
  }

  // ----- resets of one thread that is not interrupted

  lemma {:induction false} PeakResetBegins(s: State, t: nat)
    requires Enabled(s, t, CallResetPeak)
    ensures var next := Next(s, t, CallResetPeak);
            && next.heap == s.heap && next.counters == s.counters && next.truth == s.truth
            && next.pcs == s.pcs[t := PeakUsableStore(s.counters.nowUsable, true)]
  {}

  /** Resetting the peaks makes them what the counters are, whatever they were. */
  lemma {:induction false} PeakResetAlone(s: State, t: nat)
    requires Enabled(s, t, CallResetPeak)
    ensures var next := Next(s, t, CallResetPeak);
            && |next.pcs| == |s.pcs| && !next.pcs[t].Realloc?
            && var end := Alone(next, t);
               && end.heap == s.heap && end.pcs == s.pcs
               && end.counters == s.counters.(peakUsable := s.counters.nowUsable, peakTotal := TotalNow(s.counters))
               && end.truth.baseUsable == s.truth.baseUsable && end.truth.baseOverhead == s.truth.baseOverhead
  {
    hide Alone, Next, Enabled, Wrap;
    IdleCalls(s, t, CallResetPeak);
    PeakResetBegins(s, t);
    var next := Next(s, t, CallResetPeak);
    AloneKeeps(next, t);
    Onward(next, t);
    var stored := Continue(next, t);
    assert stored.pcs[t] == PeakTotalAgain;
    assert stored.counters == s.counters.(peakUsable := s.counters.nowUsable);
    AloneTotalStored(stored, t);
    assert s.pcs[t := next.pcs[t]][t := Idle] == s.pcs;
  }

  /** Setting the counters to zero leaves the heap and the peaks alone; what is allocated then, less
      what was miscounted, is what is not counted from then on. */
  lemma {:induction false} NowResetAlone(s: State, t: nat)
    requires Quiet(s) && t < |s.pcs|
    ensures Enabled(s, t, CallResetNow)
    ensures var next := Next(s, t, CallResetNow);
            && |next.pcs| == |s.pcs| && next.pcs[t] == ResetOverhead
            && var end := Alone(next, t);
               && end.heap == s.heap && end.pcs == s.pcs
               && end.counters == Counters(0, 0, s.counters.peakUsable, s.counters.peakTotal)
               && end.truth.baseUsable == Total(s.heap) - s.truth.lost
               && end.truth.baseOverhead == Overhead(|s.heap|) + s.truth.extra
  {
    hide Alone, Total, Overhead, Pending;
    var next := Next(s, t, CallResetNow);
    Onward(next, t);
    var end := Continue(next, t);
    assert end.pcs == s.pcs;
    AloneKeeps(end, t);
    NothingPending(s.pcs, false);
    NothingPending(s.pcs, true);
    PendingUpdate(s.pcs, t, ResetOverhead, true);
    hide Continue, Next;
    EndsAlone(end, t);
  }

  lemma {:induction false} EndsAlone(s: State, t: nat)
    requires t < |s.pcs| && s.pcs[t].Idle?
    ensures Alone(s, t) == s
  {}

  /** Whatever has happened before, resetting the counters and then the peaks leaves zeroes. */
  lemma {:induction false} BothReset(s: State, t: nat)
    requires Quiet(s) && t < |s.pcs|
    ensures Enabled(s, t, CallResetNow)
    ensures var called := Next(s, t, CallResetNow);
            && |called.pcs| == |s.pcs| && !called.pcs[t].Realloc?
            && var zeroed := Alone(called, t);
               && Enabled(zeroed, t, CallResetPeak)
               && var again := Next(zeroed, t, CallResetPeak);
                  && |again.pcs| == |s.pcs| && !again.pcs[t].Realloc?
                  && var end := Alone(again, t);
                     && Quiet(end) && end.heap == s.heap && end.counters == Counters(0, 0, 0, 0)
                     && end.truth.baseUsable == Total(s.heap) - s.truth.lost
                     && end.truth.baseOverhead == Overhead(|s.heap|) + s.truth.extra
  {
    hide Alone, Total, Overhead, Next, Wrap;
    NowResetAlone(s, t);
    var zeroed := Alone(Next(s, t, CallResetNow), t);
    assert zeroed.pcs[t].Idle?;
    PeakResetAlone(zeroed, t);
    ZeroIsZero(zeroed.counters);
  }

  lemma {:induction false} ZeroIsZero(c: Counters)
    requires c.nowUsable == 0 && c.nowOverhead == 0
    ensures TotalNow(c) == 0
  {}

  // ----- runs in which calls do not overlap

  /** At most one thread is inside a call. */
  predicate OneAtATime(s: State)
  {
    forall t, u :: 0 <= t < |s.pcs| && 0 <= u < |s.pcs| && !s.pcs[t].Idle? && !s.pcs[u].Idle? ==> t == u
  }

  predicate NoResets(events: seq<Event>, from: nat)
  {
    forall i :: from <= i < |events| ==> events[i].action != CallResetNow && events[i].action != CallResetPeak
  }

  /** The values at those of the states from `from` up to the `n`-th at which no call is in progress. */
  ghost function QuietUsables(states: seq<State>, from: nat, n: nat): seq<int>
    requires from <= n <= |states|
  {
    if n == from then []
    else QuietUsables(states, from, n - 1) + if Quiet(states[n - 1]) then [states[n - 1].counters.nowUsable] else []
  }

  ghost function QuietTotals(states: seq<State>, from: nat, n: nat): seq<int>
    requires from <= n <= |states|
  {
    if n == from then []
    else QuietTotals(states, from, n - 1) + if Quiet(states[n - 1]) then [TotalNow(states[n - 1].counters)] else []
  }

  /** No call is in progress, and the peaks are what the counters are. */
  predicate PeaksReset(s: State)
  {
    Quiet(s) && s.counters.peakUsable == s.counters.nowUsable && s.counters.peakTotal == TotalNow(s.counters)
  }

  function Larger(a: int, b: int): int { if b > a then b else a }

  /** How far the peaks have followed when they were `usable` and `total` before the call. */
  predicate Follows(c: Counters, pc: Pc, usable: int, total: int)
  {
    var followed := c.peakUsable == Larger(usable, c.nowUsable) && c.peakTotal == total;
    match pc
    case PeakUsableCompare(u) => u == c.nowUsable && c.peakUsable == usable && c.peakTotal == total
    case PeakUsableAgain => c.nowUsable > usable && c.peakUsable == usable && c.peakTotal == total
    case PeakUsableStore(u, only) => u == c.nowUsable > usable && c.peakTotal == total && !only
    case PeakTotal => followed
    case PeakTotalOverhead(u) => u == c.nowUsable && followed
    case PeakTotalCompare(u, o) => u == c.nowUsable && o == c.nowOverhead && followed
    case PeakTotalAgain => TotalNow(c) > total && followed
    case PeakTotalOverheadAgain(u) => u == c.nowUsable && TotalNow(c) > total && followed
    case PeakTotalStore(u, o) => u == c.nowUsable && o == c.nowOverhead && TotalNow(c) > total && followed
    case ResetOverhead => false
    case _ => c.peakUsable == usable && c.peakTotal == total
  }

  /** When the call has ended, the peaks are at least the values then. */
  predicate Followed(c: Counters, usable: int, total: int)
  {
    c.peakUsable == Larger(usable, c.nowUsable) && c.peakTotal == Larger(total, TotalNow(c))
  }

  lemma {:induction false} FollowsOn(s: State, t: nat, a: Action, usable: int, total: int)
    requires Enabled(s, t, a) && a != CallResetNow && a != CallResetPeak
    requires Follows(s.counters, s.pcs[t], usable, total)
    ensures var next := Next(s, t, a);
            if next.pcs[t].Idle? then Followed(next.counters, usable, total)
            else Follows(next.counters, next.pcs[t], usable, total)
  {
    if a == Go {
      hide Followed, Follows;
      if UpToPeakUsable(s.pcs[t]) {
        FollowsUsable(s, t, usable, total);
      } else {
        FollowsTotal(s, t, usable, total);
      }
    } else {
      hide Continue, Total, Pending, Overhead, Wrap;
    }
  }

  predicate UpToPeakUsable(pc: Pc)
  {
    pc.Free? || pc.AddUsable? || pc.AddOverhead? || pc.PeakUsable? || pc.PeakUsableCompare? || pc.PeakUsableAgain?
    || pc.PeakUsableStore?
  }

  lemma {:induction false} FollowsUsable(s: State, t: nat, usable: int, total: int)
    requires Enabled(s, t, Go) && UpToPeakUsable(s.pcs[t]) && Follows(s.counters, s.pcs[t], usable, total)
    ensures var next := Continue(s, t);
            !next.pcs[t].Idle? && Follows(next.counters, next.pcs[t], usable, total)
  {
    hide Total, Pending, Overhead, FetchAndAdd, AsSize, Wrap;
  }

  lemma {:induction false} FollowsTotal(s: State, t: nat, usable: int, total: int)
    requires Enabled(s, t, Go) && !UpToPeakUsable(s.pcs[t]) && Follows(s.counters, s.pcs[t], usable, total)
    ensures var next := Continue(s, t);
            if next.pcs[t].Idle? then Followed(next.counters, usable, total)
            else Follows(next.counters, next.pcs[t], usable, total)
  {
    hide Total, Pending, Overhead, FetchAndAdd, AsSize, Wrap;
  }

  /** While a call is in progress the peaks follow; otherwise they are what they should be. */
  ghost predicate Stage(s: State, usable: int, total: int)
  {
    && (Quiet(s) ==> s.counters.peakUsable == usable && s.counters.peakTotal == total)
    && forall t :: 0 <= t < |s.pcs| && !s.pcs[t].Idle? ==> Follows(s.counters, s.pcs[t], usable, total)
  }

  lemma {:induction false} StageStep(s: State, t: nat, a: Action, usable: int, total: int)
    requires Enabled(s, t, a) && a != CallResetNow && a != CallResetPeak
    requires OneAtATime(s) && OneAtATime(Next(s, t, a)) && Stage(s, usable, total)
    ensures var next := Next(s, t, a);
            if Quiet(next) then Followed(next.counters, usable, total) else Stage(next, usable, total)
  {
    var next := Next(s, t, a);
    OnlyOneMoves(s, t, a);
    MovesAlone(s, t, a);
    assert Quiet(s) ==> s.pcs[t].Idle?;
    FollowsOn(s, t, a, usable, total);
  }

  /** The thread that moves is the one inside a call, or all are outside. */
  lemma {:induction false} MovesAlone(s: State, t: nat, a: Action)
    requires Enabled(s, t, a) && OneAtATime(s) && OneAtATime(Next(s, t, a))
    ensures forall u :: 0 <= u < |s.pcs| && u != t ==> s.pcs[u].Idle?
  {
    hide Next;
    OnlyOneMoves(s, t, a);
    if s.pcs[t].Idle? {
      CallsBegin(s, t, a);
      var next := Next(s, t, a);
      assert forall u :: 0 <= u < |s.pcs| && u != t ==> next.pcs[u] == s.pcs[u];
    }
  }

  lemma {:induction false} CallsBegin(s: State, t: nat, a: Action)
    requires Enabled(s, t, a) && s.pcs[t].Idle?
    ensures !Next(s, t, a).pcs[t].Idle?
  {
    hide Total, Pending, Overhead, FetchAndAdd, AsSize, Wrap;
  }

  lemma {:induction false} RunStage(states: seq<State>, events: seq<Event>, r: nat, i: nat)
    returns (usable: int, total: int)
    requires IsRun(states, events) && r <= i < |states| && PeaksReset(states[r]) && NoResets(events, r)
    requires forall k :: r <= k < |states| ==> OneAtATime(states[k])
    ensures IsMaximum(usable, QuietUsables(states, r, i + 1)) && IsMaximum(total, QuietTotals(states, r, i + 1))
    ensures Stage(states[i], usable, total)
  {
    hide IsRun, Next, Enabled, Quiet, Stage, OneAtATime, IsMaximum, TotalNow, QuietUsables, QuietTotals;
    if i == r {
      usable, total := states[r].counters.nowUsable, TotalNow(states[r].counters);
      OneQuiet(states, r);
      QuietStage(states[r], usable, total);
    } else {
      hide PeaksReset;
      StepOfRun(states, events, i - 1);
      var u, v := RunStage(states, events, r, i - 1);
      var c := states[i].counters;
      QuietStep(states, r, i);
      StageStep(states[i - 1], events[i - 1].thread, events[i - 1].action, u, v);
      usable, total := u, v;
      if Quiet(states[i]) {
        usable, total := Larger(u, c.nowUsable), Larger(v, TotalNow(c));
        MaximumAppend(u, QuietUsables(states, r, i), c.nowUsable);
        MaximumAppend(v, QuietTotals(states, r, i), TotalNow(c));
        QuietStage(states[i], usable, total);
      }
    }
  }

  lemma {:induction false} OneQuiet(states: seq<State>, r: nat)
    requires r < |states| && PeaksReset(states[r])
    ensures IsMaximum(states[r].counters.nowUsable, QuietUsables(states, r, r + 1))
    ensures IsMaximum(TotalNow(states[r].counters), QuietTotals(states, r, r + 1))
  {
    hide Quiet, TotalNow;
    var usable, total := states[r].counters.nowUsable, TotalNow(states[r].counters);
    assert QuietUsables(states, r, r) == [] && QuietTotals(states, r, r) == [];
    assert QuietUsables(states, r, r + 1) == [usable] && QuietTotals(states, r, r + 1) == [total];
  }

  lemma {:induction false} QuietStep(states: seq<State>, r: nat, i: nat)
    requires r <= i < |states|
    ensures QuietUsables(states, r, i + 1) ==
              if Quiet(states[i]) then QuietUsables(states, r, i) + [states[i].counters.nowUsable]
              else QuietUsables(states, r, i)
    ensures QuietTotals(states, r, i + 1) ==
              if Quiet(states[i]) then QuietTotals(states, r, i) + [TotalNow(states[i].counters)]
              else QuietTotals(states, r, i)
  {
    hide Quiet, TotalNow;
    assert QuietUsables(states, r, i) + [] == QuietUsables(states, r, i);
    assert QuietTotals(states, r, i) + [] == QuietTotals(states, r, i);
  }

  lemma {:induction false} QuietStage(s: State, usable: int, total: int)
    requires Quiet(s) && s.counters.peakUsable == usable && s.counters.peakTotal == total
    ensures Stage(s, usable, total)
  {}

  /** As long as calls do not overlap, whenever no call is in progress each peak is the maximum of
      the values that there have been at such times since the peaks were what the counters were. */
  lemma {:induction false} PeaksAreMaxima(states: seq<State>, events: seq<Event>, r: nat, i: nat)
    requires IsRun(states, events) && r <= i < |states| && PeaksReset(states[r]) && NoResets(events, r)
    requires forall k :: r <= k < |states| ==> OneAtATime(states[k])
    requires Quiet(states[i])
    ensures IsMaximum(states[i].counters.peakUsable, QuietUsables(states, r, i + 1))
    ensures IsMaximum(states[i].counters.peakTotal, QuietTotals(states, r, i + 1))
  {
    hide IsRun, OneAtATime, IsMaximum, PeaksReset, Follows, Quiet, QuietUsables, QuietTotals;
    var usable, total := RunStage(states, events, r, i);
  }

  /** Where calls do not overlap, a thread inside one is the next to move. */
  lemma {:induction false} GoesOn(states: seq<State>, events: seq<Event>, k: nat, t: nat)
    requires IsRun(states, events) && k < |events| && OneAtATime(states[k]) && OneAtATime(states[k + 1])
    requires t < |states[k].pcs| && !states[k].pcs[t].Idle? && !states[k].pcs[t].Realloc?
    ensures states[k + 1] == Continue(states[k], t) && |states[k + 1].pcs| == |states[k].pcs|
  {
    hide IsRun, Next, Continue, Enabled;
    StepOfRun(states, events, k);
    MovesAlone(states[k], events[k].thread, events[k].action);
    OnlyOneMoves(states[k], events[k].thread, events[k].action);
    InsideGoes(states[k], t, events[k].action);
  }

  lemma {:induction false} InsideGoes(s: State, t: nat, a: Action)
    requires Enabled(s, t, a) && !s.pcs[t].Idle? && !s.pcs[t].Realloc?
    ensures a == Go && Next(s, t, a) == Continue(s, t)
  {
    hide Continue;
  }

  /** The five steps of resetting the peaks. */
  lemma {:induction false} ResetInRun(states: seq<State>, events: seq<Event>, r: nat)
    requires IsRun(states, events) && r + 5 <= |events| && Quiet(states[r]) && events[r].action == CallResetPeak
    requires forall k :: r <= k < |states| ==> OneAtATime(states[k])
    ensures PeaksReset(states[r + 5]) && states[r + 5].heap == states[r].heap
    ensures states[r + 5].counters.nowUsable == states[r].counters.nowUsable
    ensures states[r + 5].counters.nowOverhead == states[r].counters.nowOverhead
  {
    hide IsRun, Next, Enabled, OneAtATime, Wrap, Total, Pending, Overhead;
    StepOfRun(states, events, r);
    var t, c := events[r].thread, states[r].counters;
    IdleCalls(states[r], t, CallResetPeak);
    PeakResetBegins(states[r], t);
    GoesOn(states, events, r + 1, t);
    assert states[r + 2].pcs[t] == PeakTotalAgain;
    GoesOn(states, events, r + 2, t);
    assert states[r + 3].pcs[t] == PeakTotalOverheadAgain(c.nowUsable);
    GoesOn(states, events, r + 3, t);
    assert states[r + 4].pcs[t] == PeakTotalStore(c.nowUsable, c.nowOverhead);
    GoesOn(states, events, r + 4, t);
    assert states[r + 5].pcs == states[r].pcs;
  }

  /** The same from the last reset of the peaks in a run. */
  lemma {:induction false} PeaksSinceReset(states: seq<State>, events: seq<Event>, r: nat, i: nat)
    requires IsRun(states, events) && r + 5 <= i <= |events|
    requires Quiet(states[r]) && events[r].action == CallResetPeak && NoResets(events, r + 1)
    requires forall k :: r <= k < |states| ==> OneAtATime(states[k])
    requires Quiet(states[i])
    ensures IsMaximum(states[i].counters.peakUsable, QuietUsables(states, r + 5, i + 1))
    ensures IsMaximum(states[i].counters.peakTotal, QuietTotals(states, r + 5, i + 1))
  {
    hide OneAtATime, IsMaximum, PeaksReset, Quiet, QuietUsables, QuietTotals;
    ResetInRun(states, events, r);
    PeaksAreMaxima(states, events, r + 5, i);
  }

  // ----- threads that do interrupt each other

  /** A run without resets goes from one state to the other. */
  ghost predicate Leads(s: State, next: State)
  {
    exists states, events ::
      IsRun(states, events) && NoResets(events, 0) && states[0] == s && states[|events|] == next
  }

  lemma {:induction false} LeadsNowhere(s: State)
    ensures Leads(s, s)
  {
    assert IsRun([s], []) && NoResets([], 0) && [s][0] == s;
  }

  lemma {:induction false} LeadsOn(s: State, last: State, t: nat, a: Action)
    requires Leads(s, last) && Enabled(last, t, a) && a != CallResetNow && a != CallResetPeak
    ensures Leads(s, Next(last, t, a))
  {
    hide Next, Enabled;
    var states, events :| IsRun(states, events) && NoResets(events, 0) && states[0] == s && states[|events|] == last;
    var next := Next(last, t, a);
    var longer, more := states + [next], events + [Event(t, a)];
    forall i | 0 <= i < |more| ensures IsStep(longer[i], more[i], longer[i + 1]) {
      if i < |events| {
        assert IsStep(states[i], events[i], states[i + 1]);
      }
    }
    assert longer[0] == s && longer[|more|] == next;
  }

  lemma {:induction false} CountsBlock(first: State, s: State, t: nat, block: int, size: nat) returns (next: State)
    requires Leads(first, s) && t < |s.pcs| && s.pcs[t] == Idle
    requires block !in s.heap && 0 < size && Fits(s.counters.nowUsable + size) && Fits(s.counters.nowUsable)
    ensures Leads(first, next)
    ensures next.heap == s.heap[block := size] && next.pcs == s.pcs[t := PeakUsable]
    ensures next.counters == s.counters.(nowUsable := s.counters.nowUsable + size, nowOverhead := next.counters.nowOverhead)
  {
    hide Leads, Wrap, AsSize, FetchAndAdd;
    var now := s.counters.nowUsable + size;
    AddDifference(s.counters.nowUsable, size);
    LeadsOn(first, s, t, CallAlloc(block, size));
    var s1 := Next(s, t, CallAlloc(block, size));
    LeadsOn(first, s1, t, Go);
    var s2 := Continue(s1, t);
    assert s2.counters.nowUsable == now && s2.pcs == s.pcs[t := AddOverhead(CHUNK_OVERHEAD)];
    LeadsOn(first, s2, t, Go);
    next := Continue(s2, t);
  }

  /** A thread allocates a block and gets as far as having loaded a new peak. */
  lemma {:induction false} LoadsPeak(first: State, s: State, t: nat, block: int, size: nat) returns (next: State)
    requires Leads(first, s) && t < |s.pcs| && s.pcs[t] == Idle
    requires block !in s.heap && 0 < size && Fits(s.counters.nowUsable + size) && Fits(s.counters.nowUsable)
    requires s.counters.nowUsable + size > s.counters.peakUsable
    ensures Leads(first, next)
    ensures next.heap == s.heap[block := size]
    ensures next.pcs == s.pcs[t := PeakUsableStore(s.counters.nowUsable + size, false)]
    ensures next.counters == s.counters.(nowUsable := s.counters.nowUsable + size, nowOverhead := next.counters.nowOverhead)
  {
    hide Leads, Wrap, AsSize, FetchAndAdd;
    var now := s.counters.nowUsable + size;
    var s3 := CountsBlock(first, s, t, block, size);
    LeadsOn(first, s3, t, Go);
    var s4 := Continue(s3, t);
    assert s4.pcs == s.pcs[t := PeakUsableCompare(now)];
    LeadsOn(first, s4, t, Go);
    var s5 := Continue(s4, t);
    assert s5.pcs == s.pcs[t := PeakUsableAgain];
    LeadsOn(first, s5, t, Go);
    next := Continue(s5, t);
  }

  /** A thread that has followed with the first peak ends its call. */
  lemma {:induction false} EndsCall(first: State, s: State, t: nat) returns (next: State)
    requires Leads(first, s) && t < |s.pcs| && s.pcs[t] == PeakTotal
    ensures Leads(first, next) && next.pcs == s.pcs[t := Idle]
    ensures next.counters == s.counters.(peakTotal := next.counters.peakTotal)
  {
    hide Leads, Wrap, AsSize, FetchAndAdd;
    var c := s.counters;
    LeadsOn(first, s, t, Go);
    var s1 := Continue(s, t);
    assert s1.pcs == s.pcs[t := PeakTotalOverhead(c.nowUsable)];
    LeadsOn(first, s1, t, Go);
    var s2 := Continue(s1, t);
    assert s2.pcs == s.pcs[t := PeakTotalCompare(c.nowUsable, c.nowOverhead)];
    LeadsOn(first, s2, t, Go);
    next := Continue(s2, t);
    if Wrap(c.nowUsable + c.nowOverhead) > c.peakTotal {
      assert next.pcs == s.pcs[t := PeakTotalAgain] && next.counters == c;
      next := StoresTotal(first, next, t);
    }
  }

  lemma {:induction false} StoresTotal(first: State, s: State, t: nat) returns (next: State)
    requires Leads(first, s) && t < |s.pcs| && s.pcs[t] == PeakTotalAgain
    ensures Leads(first, next) && next.pcs == s.pcs[t := Idle]
    ensures next.counters == s.counters.(peakTotal := next.counters.peakTotal)
  {
    hide Leads, Wrap, AsSize, FetchAndAdd;
    LeadsOn(first, s, t, Go);
    var s1 := Continue(s, t);
    assert s1.pcs == s.pcs[t := PeakTotalOverheadAgain(s.counters.nowUsable)];
    LeadsOn(first, s1, t, Go);
    var s2 := Continue(s1, t);
    assert s2.pcs == s.pcs[t := PeakTotalStore(s.counters.nowUsable, s.counters.nowOverhead)];
    LeadsOn(first, s2, t, Go);
    next := Continue(s2, t);
  }

  /** With two threads or more, both can load a new peak before either stores its own. When all
      calls have ended, the peak is then below the value that the counter has. */
  lemma {:induction false} PeakMayFall(threads: nat) returns (s: State, low: State)
    requires threads >= 2
    ensures Started(s) && PeaksReset(s) && |s.pcs| == threads && Leads(s, low)
    ensures Quiet(low) && low.counters.nowUsable == 150 && low.counters.peakUsable == 100
  {
    hide Leads, Wrap, AsSize, FetchAndAdd;
    var idle := seq(threads, i requires 0 <= i < threads => Idle);
    s := State(map[], idle, Counters(0, 0, 0, 0), Truth(0, 0, 0, 0, {0}, {0}));
    LeadsNowhere(s);
    var one := LoadsPeak(s, s, 0, 1, 100);
    var two := LoadsPeak(s, one, 1, 2, 50);
    low := BothEnd(s, two, 100, 150);
    assert low.pcs == idle;
  }

  /** The first two threads store the peaks they have loaded, the second one first. */
  lemma {:induction false} BothEnd(first: State, s: State, u: int, v: int) returns (next: State)
    requires Leads(first, s) && |s.pcs| >= 2
    requires s.pcs[0] == PeakUsableStore(u, false) && s.pcs[1] == PeakUsableStore(v, false)
    ensures Leads(first, next) && next.pcs == s.pcs[0 := Idle][1 := Idle]
    ensures next.counters == s.counters.(peakUsable := u, peakTotal := next.counters.peakTotal)
  {
    hide Leads, Wrap, AsSize, FetchAndAdd;
    LeadsOn(first, s, 1, Go);
    var s1 := Continue(s, 1);
    assert s1.pcs == s.pcs[1 := PeakTotal];
    LeadsOn(first, s1, 0, Go);
    var s2 := Continue(s1, 0);
    assert s2.pcs == s.pcs[0 := PeakTotal][1 := PeakTotal];
    var s3 := EndsCall(first, s2, 0);
    next := EndsCall(first, s3, 1);
  }

  // ----- with how many threads the peaks are maxima

  /** A run of that many threads, from a time at which the peaks are what the counters are, and
      without further resets. */
  ghost predicate IsFreshRun(states: seq<State>, events: seq<Event>, threads: nat)
  {
    IsRun(states, events) && NoResets(events, 0) && PeaksReset(states[0]) && |states[0].pcs| == threads
  }

  /** Whenever no call is in progress, each peak is the maximum of the values at such times. */
  ghost predicate AlwaysMaximal(states: seq<State>)
  {
    forall i :: 0 <= i < |states| && Quiet(states[i]) ==> PeaksMaximal(states, i)
  }

  ghost predicate PeaksHold(threads: nat)
  {
    forall states: seq<State>, events: seq<Event> :: IsFreshRun(states, events, threads) ==> AlwaysMaximal(states)
  }

  ghost predicate PeaksMaximal(states: seq<State>, i: nat)
    requires i < |states|
  {
    && IsMaximum(states[i].counters.peakUsable, QuietUsables(states, 0, i + 1))
    && IsMaximum(states[i].counters.peakTotal, QuietTotals(states, 0, i + 1))
  }

  lemma {:induction false} ThreadsStay(states: seq<State>, events: seq<Event>, i: nat)
    requires IsRun(states, events) && i < |states|
    ensures |states[i].pcs| == |states[0].pcs|
  {
    if i > 0 {
      hide IsRun, Next, Enabled;
      StepOfRun(states, events, i - 1);
      ThreadsStay(states, events, i - 1);
      OnlyOneMoves(states[i - 1], events[i - 1].thread, events[i - 1].action);
    }
  }

  lemma {:induction false} OneThreadHolds(states: seq<State>, events: seq<Event>, threads: nat)
    requires IsFreshRun(states, events, threads) && threads <= 1
    ensures AlwaysMaximal(states)
  {
    hide PeaksReset, Quiet;
    forall k | 0 <= k < |states| ensures OneAtATime(states[k]) {
      ThreadsStay(states, events, k);
    }
    forall i | 0 <= i < |states| && Quiet(states[i]) ensures PeaksMaximal(states, i) {
      PeaksAreMaxima(states, events, 0, i);
    }
  }

  /** The peaks are maxima in every run without further resets, exactly if there are fewer than
      two threads. */
  lemma {:induction false} PeaksHoldExactly(threads: nat)
    ensures PeaksHold(threads) <==> threads <= 1
  {
    hide IsFreshRun, AlwaysMaximal, Started, PeaksReset, Leads, Quiet;
    if threads <= 1 {
      forall states: seq<State>, events: seq<Event> | IsFreshRun(states, events, threads)
        ensures AlwaysMaximal(states)
      {
        OneThreadHolds(states, events, threads);
      }
    } else {
      var s, low := PeakMayFall(threads);
      NotMaximal(s, low);
    }
  }

  lemma {:induction false} NotMaximal(s: State, low: State)
    requires PeaksReset(s) && Leads(s, low) && Quiet(low) && low.counters.nowUsable > low.counters.peakUsable
    ensures !PeaksHold(|s.pcs|)
  {
    hide PeaksReset, Quiet;
    var states, events :| IsRun(states, events) && NoResets(events, 0) && states[0] == s && states[|events|] == low;
    var values, n := QuietUsables(states, 0, |events| + 1), |QuietUsables(states, 0, |events|)|;
    assert values[n] == low.counters.nowUsable;
    assert !PeaksMaximal(states, |events|);
    assert IsFreshRun(states, events, |s.pcs|) && !AlwaysMaximal(states);
  }
}
