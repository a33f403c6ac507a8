/** Threads that allocate and free memory while shared counters follow them. */
module AllocationCounting {
  import opened Text
  import opened Int32

  const CHUNK_OVERHEAD: nat := 16

  /** The sizes of the allocated blocks. */
  type Heap = map<int, nat>

  /** What a thread will do next inside a call, with the registers it has loaded. */
  datatype Pc =
    | Idle
    | Free(block: int, oldSize: nat)
    | Realloc(target: Option<int>, oldSize: nat)
    | AddUsable(usable: int, overhead: int)
    | AddOverhead(overhead: int)
    | PeakUsable
    | PeakUsableCompare(usable: int)
    | PeakUsableAgain
    | PeakUsableStore(usable: int, only: bool)
    | PeakTotal
    | PeakTotalOverhead(usable: int)
    | PeakTotalCompare(usable: int, overhead: int)
    | PeakTotalAgain
    | PeakTotalOverheadAgain(usable: int)
    | PeakTotalStore(usable: int, overhead: int)
    | ResetOverhead

  datatype Counters = Counters(nowUsable: int, nowOverhead: int, peakUsable: int, peakTotal: int)

  /** The truth beside the counters: what had been allocated, less what was pending, when they
      were last set to zero; by how much calls of `realloc` have miscounted; and the values
      the two current counters have had. */
  datatype Truth = Truth(baseUsable: int, baseOverhead: int, lost: int, extra: int,
                         usables: set<int>, overheads: set<int>)

  datatype State = State(heap: Heap, pcs: seq<Pc>, counters: Counters, truth: Truth)

  /** What makes a thread go on: a call, the outcome of the C library's function, or nothing. */
  datatype Action =
    | CallAlloc(block: int, size: nat)
    | CallFree(block: int)
    | CallRealloc(target: Option<int>)
    | Succeed(block: int, size: nat)
    | Fail
    | Release
    | CallResetNow
    | CallResetPeak
    | Go

  // ----- the machine

  /** The block a thread is about to release. */
  function Claim(pc: Pc): Option<int>
  {
    match pc
    case Free(block, _) => Some(block)
    case Realloc(target, _) => target
    case _ => None
  }

  /** A program passes a block to `free` or `realloc` only while it is allocated, and once. */
  predicate MayRelease(s: State, block: int)
  {
    block in s.heap && forall t :: 0 <= t < |s.pcs| ==> Claim(s.pcs[t]) != Some(block)
  }

  predicate Enabled(s: State, t: nat, a: Action)
  {
    && t < |s.pcs|
    && match a
       case CallAlloc(block, size) => s.pcs[t].Idle? && block !in s.heap && size > 0
       case CallFree(block) => s.pcs[t].Idle? && MayRelease(s, block)
       case CallRealloc(target) => s.pcs[t].Idle? && (target.Some? ==> MayRelease(s, target.value))
       case Succeed(block, size) =>
         s.pcs[t].Realloc? && size > 0 && (s.pcs[t].target == Some(block) || block !in s.heap)
       case Fail => s.pcs[t].Realloc?
       case Release => s.pcs[t].Realloc? && s.pcs[t].target.Some?
       case CallResetNow => s.pcs[t].Idle?
       case CallResetPeak => s.pcs[t].Idle?
       case Go => !s.pcs[t].Idle? && !s.pcs[t].Realloc?
  }

  ghost function Next(s: State, t: nat, a: Action): State
    requires Enabled(s, t, a)
  {
    match a
    case CallAlloc(block, size) =>
      s.(heap := s.heap[block := size], pcs := s.pcs[t := AddUsable(size, CHUNK_OVERHEAD)])
    case CallFree(block) =>
      s.(pcs := s.pcs[t := Free(block, s.heap[block])])
    case CallRealloc(target) =>
      s.(pcs := s.pcs[t := Realloc(target, if target.Some? then s.heap[target.value] else 0)])
    case Succeed(block, size) =>
      var heap := Without(s.heap, s.pcs[t].target)[block := size];
      s.(heap := heap, pcs := s.pcs[t := Reallocated(s.pcs[t].oldSize, size)])
    case Fail =>
      // The block stays allocated, but its size is taken off the counter.
      var miss := if s.pcs[t].oldSize == 0 then s.truth.(extra := s.truth.extra + CHUNK_OVERHEAD)
                  else s.truth.(lost := s.truth.lost + s.pcs[t].oldSize);
      s.(pcs := s.pcs[t := Reallocated(s.pcs[t].oldSize, 0)], truth := miss)
    case Release =>
      // The block is gone, but its overhead stays on the counter.
      s.(heap := Without(s.heap, s.pcs[t].target), pcs := s.pcs[t := Reallocated(s.pcs[t].oldSize, 0)],
         truth := s.truth.(extra := s.truth.extra + CHUNK_OVERHEAD))
    case CallResetNow =>
      SetUsable(s.(pcs := s.pcs[t := ResetOverhead],
                   truth := s.truth.(baseUsable := Total(s.heap) - Pending(s.pcs, false) - s.truth.lost)), 0)
    case CallResetPeak =>
      s.(pcs := s.pcs[t := PeakUsableStore(s.counters.nowUsable, true)])
    case Go => Continue(s, t)
  }

  function Without(heap: Heap, block: Option<int>): Heap
  {
    if block.Some? then heap - {block.value} else heap
  }

  function Reallocated(oldSize: nat, size: nat): Pc
  {
    AddUsable(size - oldSize, if oldSize == 0 then CHUNK_OVERHEAD else 0)
  }

  function SetUsable(s: State, value: int): State
  {
    s.(counters := s.counters.(nowUsable := value), truth := s.truth.(usables := s.truth.usables + {value}))
  }

  function SetOverhead(s: State, value: int): State
  {
    s.(counters := s.counters.(nowOverhead := value), truth := s.truth.(overheads := s.truth.overheads + {value}))
  }

  ghost function Continue(s: State, t: nat): State
    requires t < |s.pcs| && !s.pcs[t].Idle? && !s.pcs[t].Realloc?
  {
    var c := s.counters;
    match s.pcs[t]
    case Free(block, oldSize) =>
      s.(heap := s.heap - {block}, pcs := s.pcs[t := AddUsable(0 - oldSize, 0 - CHUNK_OVERHEAD)])
    case AddUsable(usable, overhead) =>
      SetUsable(s.(pcs := s.pcs[t := if overhead == 0 then PeakUsable else AddOverhead(overhead)]),
                FetchAndAdd(c.nowUsable, AsSize(usable)))
    case AddOverhead(overhead) =>
      SetOverhead(s.(pcs := s.pcs[t := PeakUsable]), FetchAndAdd(c.nowOverhead, AsSize(overhead)))
    case PeakUsable => s.(pcs := s.pcs[t := PeakUsableCompare(c.nowUsable)])
    case PeakUsableCompare(usable) =>
      s.(pcs := s.pcs[t := if usable > c.peakUsable then PeakUsableAgain else PeakTotal])
    case PeakUsableAgain => s.(pcs := s.pcs[t := PeakUsableStore(c.nowUsable, false)])
    case PeakUsableStore(usable, only) =>
      s.(counters := c.(peakUsable := usable), pcs := s.pcs[t := if only then PeakTotalAgain else PeakTotal])
    case PeakTotal => s.(pcs := s.pcs[t := PeakTotalOverhead(c.nowUsable)])
    case PeakTotalOverhead(usable) => s.(pcs := s.pcs[t := PeakTotalCompare(usable, c.nowOverhead)])
    case PeakTotalCompare(usable, overhead) =>
      s.(pcs := s.pcs[t := if Wrap(usable + overhead) > c.peakTotal then PeakTotalAgain else Idle])
    case PeakTotalAgain => s.(pcs := s.pcs[t := PeakTotalOverheadAgain(c.nowUsable)])
    case PeakTotalOverheadAgain(usable) => s.(pcs := s.pcs[t := PeakTotalStore(usable, c.nowOverhead)])
    case PeakTotalStore(usable, overhead) =>
      s.(counters := c.(peakTotal := Wrap(usable + overhead)), pcs := s.pcs[t := Idle])
    case ResetOverhead =>
      SetOverhead(s.(pcs := s.pcs[t := Idle],
                     truth := s.truth.(baseOverhead :=
                       Overhead(|s.heap|) - Pending(s.pcs, true) + s.truth.extra)), 0)
  }

  // ----- sums

  /** The bytes in allocated blocks. */
  ghost function Total(heap: Heap): int
  {
    if exists block :: block in heap then
      var block :| block in heap;
      heap[block] + Total(heap - {block})
    else 0
  }

  /** The bytes the C library needs beside those blocks. */
  function Overhead(blocks: nat): int
  {
    if blocks == 0 then 0 else Overhead(blocks - 1) + CHUNK_OVERHEAD
  }

  lemma {:induction false} OverheadIsProduct(blocks: nat)
    ensures Overhead(blocks) == CHUNK_OVERHEAD * blocks
  {
    if blocks > 0 {
      OverheadIsProduct(blocks - 1);
    }
  }

  function Owed(pc: Pc, overhead: bool): int
  {
    match pc
    case AddUsable(u, o) => if overhead then o else u
    case AddOverhead(o) => if overhead then o else 0
    case _ => 0
  }

  /** What calls in progress have not added yet, to the usable bytes or to the overhead. */
  function Pending(pcs: seq<Pc>, overhead: bool): int
  {
    if |pcs| == 0 then 0 else Owed(pcs[0], overhead) + Pending(pcs[1..], overhead)
  }

  lemma {:induction false} PendingUpdate(pcs: seq<Pc>, t: nat, pc: Pc, overhead: bool)
    requires t < |pcs|
    ensures Pending(pcs[t := pc], overhead) == Pending(pcs, overhead) - Owed(pcs[t], overhead) + Owed(pc, overhead)
  {
    var after := pcs[t := pc];
    if t == 0 {
      assert after[1..] == pcs[1..];
    } else {
      PendingUpdate(pcs[1..], t - 1, pc, overhead);
      assert after[1..] == pcs[1..][t - 1 := pc];
    }
  }

  lemma {:induction false} NothingPending(pcs: seq<Pc>, overhead: bool)
    requires forall t :: 0 <= t < |pcs| ==> pcs[t].Idle?
    ensures Pending(pcs, overhead) == 0
  {
    if |pcs| > 0 {
      NothingPending(pcs[1..], overhead);
    }
  }

  lemma {:induction false} TotalWithout(heap: Heap, block: int)
    requires block in heap
    ensures Total(heap) == heap[block] + Total(heap - {block})
    decreases |heap|
  {
    var first :| first in heap && Total(heap) == heap[first] + Total(heap - {first});
    if first != block {
      TotalWithout(heap - {first}, block);
      TotalWithout(heap - {block}, first);
      assert (heap - {first}) - {block} == (heap - {block}) - {first};
    }
  }

  lemma {:induction false} TotalWith(heap: Heap, block: int, size: nat)
    requires block !in heap
    ensures Total(heap[block := size]) == Total(heap) + size
    ensures Overhead(|heap[block := size]|) == Overhead(|heap|) + CHUNK_OVERHEAD
  {
    TotalWithout(heap[block := size], block);
    assert heap[block := size] - {block} == heap;
  }

  // ----- what every step keeps

  /** Blocks that are being released are still there, with the size that was looked up, and
      no two threads release the same one. */
  predicate Disciplined(s: State)
  {
    && (forall b :: b in s.heap ==> s.heap[b] > 0)
    && (forall t :: 0 <= t < |s.pcs| ==> Looked(s.heap, s.pcs[t]))
    && (forall t, u :: 0 <= t < u < |s.pcs| && Claim(s.pcs[t]).Some? ==> Claim(s.pcs[t]) != Claim(s.pcs[u]))
  }

  predicate Looked(heap: Heap, pc: Pc)
  {
    match pc
    case Free(block, oldSize) => block in heap && heap[block] == oldSize > 0
    case Realloc(target, oldSize) =>
      if target.Some? then target.value in heap && heap[target.value] == oldSize > 0 else oldSize == 0
    case _ => true
  }

  /** What the counters ought to be: what has been allocated since they were set to zero, less
      what calls in progress have yet to add, corrected for what `realloc` has miscounted. */
  ghost function UsableTruth(s: State): int
  {
    Total(s.heap) - s.truth.baseUsable - Pending(s.pcs, false) - s.truth.lost
  }

  ghost function OverheadTruth(s: State): int
  {
    Overhead(|s.heap|) - s.truth.baseOverhead - Pending(s.pcs, true) + s.truth.extra
  }

  ghost predicate Conserved(s: State)
  {
    s.counters.nowUsable == Wrap(UsableTruth(s)) && s.counters.nowOverhead == Wrap(OverheadTruth(s))
  }

  /** The heap has changed in no block that another thread is about to release. */
  lemma {:induction false} OthersUndisturbed(s: State, t: nat, heap: Heap)
    requires Disciplined(s) && t < |s.pcs|
    requires forall b :: b in s.heap && Claim(s.pcs[t]) != Some(b) ==> b in heap && heap[b] == s.heap[b]
    ensures forall u :: 0 <= u < |s.pcs| && u != t ==> Looked(heap, s.pcs[u])
  {
    forall u | 0 <= u < |s.pcs| && u != t ensures Looked(heap, s.pcs[u]) {
      assert Looked(s.heap, s.pcs[u]);
      if Claim(s.pcs[u]).Some? {
        var block := Claim(s.pcs[u]).value;
        assert Claim(s.pcs[u]) == Some(block) && Claim(s.pcs[u]) != Claim(s.pcs[t]);
        assert block in heap && heap[block] == s.heap[block];
      }
    }
  }

  lemma {:induction false} NoOtherReleases(s: State, pc: Pc)
    requires Claim(pc).Some? ==> MayRelease(s, Claim(pc).value)
    ensures forall u :: 0 <= u < |s.pcs| && Claim(pc).Some? ==> Claim(s.pcs[u]) != Claim(pc)
  {
    if Claim(pc).Some? {
      assert Claim(pc) == Some(Claim(pc).value);
    }
  }

  lemma {:induction false} OneStepOn(s: State, t: nat, next: State)
    requires Disciplined(s) && t < |s.pcs| && |next.pcs| == |s.pcs|
    requires next.pcs == s.pcs[t := next.pcs[t]]
    requires forall b :: b in next.heap ==> next.heap[b] > 0
    requires forall b :: b in s.heap && Claim(s.pcs[t]) != Some(b) ==> b in next.heap && next.heap[b] == s.heap[b]
    requires Looked(next.heap, next.pcs[t])
    requires Claim(next.pcs[t]).Some? ==> MayRelease(s, Claim(next.pcs[t]).value)
    ensures Disciplined(next)
  {
    hide Looked, MayRelease;
    OthersUndisturbed(s, t, next.heap);
    NoOtherReleases(s, next.pcs[t]);
    hide Claim;
    assert forall u :: 0 <= u < |s.pcs| && u != t ==> next.pcs[u] == s.pcs[u];
  }

  lemma {:induction false} StaysDisciplined(s: State, t: nat, a: Action)
    requires Disciplined(s) && Enabled(s, t, a)
    ensures Disciplined(Next(s, t, a))
  {
    hide Next, Looked, Claim, MayRelease;
    NextMoves(s, t, a);
    NextHeap(s, t, a);
    NextLooks(s, t, a);
    OneStepOn(s, t, Next(s, t, a));
  }

  lemma {:induction false} NextMoves(s: State, t: nat, a: Action)
    requires Enabled(s, t, a)
    ensures |Next(s, t, a).pcs| == |s.pcs| && Next(s, t, a).pcs == s.pcs[t := Next(s, t, a).pcs[t]]
  {
    hide Total, Pending, Overhead, Wrap, FetchAndAdd, AsSize;
  }

  /** A step leaves all blocks alone but one that its thread is about to release. */
  lemma {:induction false} NextHeap(s: State, t: nat, a: Action)
    requires Disciplined(s) && Enabled(s, t, a)
    ensures var heap := Next(s, t, a).heap;
            && (forall b :: b in heap ==> heap[b] > 0)
            && (forall b :: b in s.heap && Claim(s.pcs[t]) != Some(b) ==> b in heap && heap[b] == s.heap[b])
  {
    hide Total, Pending, Overhead, Wrap, FetchAndAdd, AsSize;
  }

  /** What is about to be released has been looked up, and no other thread releases it. */
  lemma {:induction false} NextLooks(s: State, t: nat, a: Action)
    requires Disciplined(s) && Enabled(s, t, a)
    ensures var next := Next(s, t, a);
            && Looked(next.heap, next.pcs[t])
            && (Claim(next.pcs[t]).Some? ==> MayRelease(s, Claim(next.pcs[t]).value))
  {
    hide Total, Pending, Overhead, Wrap, FetchAndAdd, AsSize;
    assert Looked(s.heap, s.pcs[t]);
  }

  lemma {:induction false} StaysConserved(s: State, t: nat, a: Action)
    requires Disciplined(s) && Conserved(s) && Enabled(s, t, a)
    ensures Conserved(Next(s, t, a))
  {
    if a == Go {
      match s.pcs[t] {
        case AddUsable(_, _) => AddUsableKeeps(s, t);
        case AddOverhead(_) => AddOverheadKeeps(s, t);
        case Free(_, _) => FreeKeeps(s, t);
        case ResetOverhead => ResetKeeps(s, t, a);
        case _ => OthersKeep(s, t, a);
      }
    } else if a == CallResetNow {
      ResetKeeps(s, t, a);
    } else if a.CallAlloc? {
      AllocKeeps(s, t, a.block, a.size);
    } else if s.pcs[t].Realloc? {
      ReallocKeeps(s, t, a);
    } else {
      OthersKeep(s, t, a);
    }
  }

  lemma {:induction false} AddUsableKeeps(s: State, t: nat)
    requires Conserved(s) && t < |s.pcs| && s.pcs[t].AddUsable?
    ensures Conserved(Continue(s, t))
  {
    hide Wrap, FetchAndAdd, AsSize, Total, Overhead, Pending;
    var next := Continue(s, t);
    PendingUpdate(s.pcs, t, next.pcs[t], false);
    PendingUpdate(s.pcs, t, next.pcs[t], true);
    AddDifference(UsableTruth(s), s.pcs[t].usable);
  }

  lemma {:induction false} AddOverheadKeeps(s: State, t: nat)
    requires Conserved(s) && t < |s.pcs| && s.pcs[t].AddOverhead?
    ensures Conserved(Continue(s, t))
  {
    hide Wrap, FetchAndAdd, AsSize, Total, Overhead, Pending;
    var next := Continue(s, t);
    PendingUpdate(s.pcs, t, next.pcs[t], false);
    PendingUpdate(s.pcs, t, next.pcs[t], true);
    AddDifference(OverheadTruth(s), s.pcs[t].overhead);
  }

  lemma {:induction false} ResetKeeps(s: State, t: nat, a: Action)
    requires Conserved(s) && Enabled(s, t, a)
    requires a == CallResetNow || (a == Go && s.pcs[t].ResetOverhead?)
    ensures Conserved(Next(s, t, a))
  {
    hide FetchAndAdd, AsSize, Total, Pending;
    var next := Next(s, t, a);
    PendingUpdate(s.pcs, t, next.pcs[t], false);
    PendingUpdate(s.pcs, t, next.pcs[t], true);
  }

  predicate CountsOrResets(s: State, t: nat, a: Action)
    requires t < |s.pcs|
  {
    a == CallResetNow || (a == Go && (s.pcs[t].AddUsable? || s.pcs[t].AddOverhead? || s.pcs[t].ResetOverhead?))
  }

  predicate MovesHeap(s: State, t: nat, a: Action)
    requires t < |s.pcs|
  {
    a.CallAlloc? || s.pcs[t].Free? || s.pcs[t].Realloc?
  }

  /** Steps that leave the heap alone and count nothing leave everything alone. */
  lemma {:induction false} OthersKeep(s: State, t: nat, a: Action)
    requires Enabled(s, t, a) && !CountsOrResets(s, t, a) && !MovesHeap(s, t, a)
    ensures UsableTruth(Next(s, t, a)) == UsableTruth(s)
    ensures OverheadTruth(Next(s, t, a)) == OverheadTruth(s)
    ensures Next(s, t, a).counters.nowUsable == s.counters.nowUsable
    ensures Next(s, t, a).counters.nowOverhead == s.counters.nowOverhead
  {
    hide Wrap, FetchAndAdd, AsSize, Total, Overhead, Pending;
    var next := Next(s, t, a);
    PendingUpdate(s.pcs, t, next.pcs[t], false);
    PendingUpdate(s.pcs, t, next.pcs[t], true);
    QuietStep(s, t, a);
  }

  lemma {:induction false} QuietStep(s: State, t: nat, a: Action)
    requires Enabled(s, t, a) && !CountsOrResets(s, t, a) && !MovesHeap(s, t, a)
    ensures var next := Next(s, t, a);
            && next.heap == s.heap && next.truth == s.truth
            && next.counters.nowUsable == s.counters.nowUsable && next.counters.nowOverhead == s.counters.nowOverhead
            && |next.pcs| == |s.pcs| && next.pcs == s.pcs[t := next.pcs[t]]
            && (forall overhead :: Owed(s.pcs[t], overhead) == 0 && Owed(next.pcs[t], overhead) == 0)
  {
    hide Wrap, FetchAndAdd, AsSize, Total, Overhead, Pending;
  }

  /** An allocation, and the C library's part of `free`, move bytes between the heap and what is
      pending. */
  lemma {:induction false} AllocKeeps(s: State, t: nat, block: int, size: nat)
    requires Enabled(s, t, CallAlloc(block, size))
    ensures var next := Next(s, t, CallAlloc(block, size));
            && UsableTruth(next) == UsableTruth(s) && OverheadTruth(next) == OverheadTruth(s)
            && next.counters == s.counters
  {
    hide Wrap, FetchAndAdd, AsSize, Total, Overhead, Pending;
    var pc := AddUsable(size, CHUNK_OVERHEAD);
    PendingUpdate(s.pcs, t, pc, false);
    PendingUpdate(s.pcs, t, pc, true);
    TotalWith(s.heap, block, size);
  }

  lemma {:induction false} FreeKeeps(s: State, t: nat)
    requires Disciplined(s) && t < |s.pcs| && s.pcs[t].Free?
    ensures var next := Continue(s, t);
            && UsableTruth(next) == UsableTruth(s) && OverheadTruth(next) == OverheadTruth(s)
            && next.counters == s.counters
  {
    hide Wrap, FetchAndAdd, AsSize, Total, Overhead, Pending;
    var pc := Continue(s, t).pcs[t];
    assert Looked(s.heap, s.pcs[t]);
    PendingUpdate(s.pcs, t, pc, false);
    PendingUpdate(s.pcs, t, pc, true);
    HeapWithout(s.heap, Some(s.pcs[t].block));
  }

  /** So does the outcome of the C library's `realloc`, what it miscounts included. */
  lemma {:induction false} ReallocKeeps(s: State, t: nat, a: Action)
    requires Disciplined(s) && Enabled(s, t, a) && s.pcs[t].Realloc?
    ensures UsableTruth(Next(s, t, a)) == UsableTruth(s)
    ensures OverheadTruth(Next(s, t, a)) == OverheadTruth(s)
    ensures Next(s, t, a).counters == s.counters
  {
    hide Wrap, FetchAndAdd, AsSize, UsableTruth, OverheadTruth;
    match a {
      case Succeed(block, size) => SucceedKeeps(s, t, block, size);
      case Fail => FailKeeps(s, t);
      case Release => ReleaseKeeps(s, t);
    }
  }

  lemma {:induction false} SucceedKeeps(s: State, t: nat, block: int, size: nat)
    requires Disciplined(s) && Enabled(s, t, Succeed(block, size))
    ensures var next := Next(s, t, Succeed(block, size));
            UsableTruth(next) == UsableTruth(s) && OverheadTruth(next) == OverheadTruth(s)
  {
    hide Wrap, FetchAndAdd, AsSize, Total, Overhead, Pending;
    var pc := Reallocated(s.pcs[t].oldSize, size);
    assert Looked(s.heap, s.pcs[t]);
    PendingUpdate(s.pcs, t, pc, false);
    PendingUpdate(s.pcs, t, pc, true);
    HeapRealloc(s.heap, s.pcs[t].target, block, size);
  }

  lemma {:induction false} FailKeeps(s: State, t: nat)
    requires Disciplined(s) && Enabled(s, t, Fail)
    ensures UsableTruth(Next(s, t, Fail)) == UsableTruth(s)
    ensures OverheadTruth(Next(s, t, Fail)) == OverheadTruth(s)
  {
    hide Wrap, FetchAndAdd, AsSize, Total, Overhead, Pending;
    var pc := Reallocated(s.pcs[t].oldSize, 0);
    PendingUpdate(s.pcs, t, pc, false);
    PendingUpdate(s.pcs, t, pc, true);
  }

  lemma {:induction false} ReleaseKeeps(s: State, t: nat)
    requires Disciplined(s) && Enabled(s, t, Release)
    ensures UsableTruth(Next(s, t, Release)) == UsableTruth(s)
    ensures OverheadTruth(Next(s, t, Release)) == OverheadTruth(s)
  {
    hide Wrap, FetchAndAdd, AsSize, Total, Overhead, Pending;
    var pc := Reallocated(s.pcs[t].oldSize, 0);
    assert Looked(s.heap, s.pcs[t]);
    PendingUpdate(s.pcs, t, pc, false);
    PendingUpdate(s.pcs, t, pc, true);
    HeapWithout(s.heap, s.pcs[t].target);
  }

  lemma {:induction false} HeapRealloc(heap: Heap, target: Option<int>, block: int, size: nat)
    requires target.Some? ==> target.value in heap
    requires target == Some(block) || block !in heap
    ensures var after := Without(heap, target)[block := size];
            && Total(after) == Total(heap) - (if target.Some? then heap[target.value] else 0) + size
            && Overhead(|after|) == Overhead(|heap|) + (if target.Some? then 0 else CHUNK_OVERHEAD)
  {
    HeapWithout(heap, target);
    TotalWith(Without(heap, target), block, size);
  }

  lemma {:induction false} HeapWithout(heap: Heap, block: Option<int>)
    requires block.Some? ==> block.value in heap
    ensures Total(Without(heap, block)) == Total(heap) - (if block.Some? then heap[block.value] else 0)
    ensures Overhead(|Without(heap, block)|) == Overhead(|heap|) - (if block.Some? then CHUNK_OVERHEAD else 0)
  {
    if block.Some? {
      TotalWithout(heap, block.value);
      var rest := heap - {block.value};
      assert heap.Keys == rest.Keys + {block.value};
    }
  }

  // ----- whole runs

  datatype Event = Event(thread: nat, action: Action)

  /** The steps of all threads, interleaved in any way. */
  ghost predicate IsRun(states: seq<State>, events: seq<Event>)
  {
    && |states| == |events| + 1
    && forall i {:trigger events[i]} :: 0 <= i < |events| ==> IsStep(states[i], events[i], states[i + 1])
  }

  ghost predicate IsStep(s: State, e: Event, next: State)
  {
    Enabled(s, e.thread, e.action) && next == Next(s, e.thread, e.action)
  }

  lemma {:induction false} StepOfRun(states: seq<State>, events: seq<Event>, i: nat)
    requires IsRun(states, events)
    ensures |states| == |events| + 1
    ensures i < |events| ==> Enabled(states[i], events[i].thread, events[i].action)
    ensures i < |events| ==> states[i + 1] == Next(states[i], events[i].thread, events[i].action)
  {
    hide Next, Enabled;
  }

  /** No call is in progress. */
  predicate Quiet(s: State)
  {
    forall t :: 0 <= t < |s.pcs| ==> s.pcs[t].Idle?
  }

  /** The state in which counting begins: what is allocated by then is not counted, and the C library
      says how many bytes that is. */
  ghost predicate Started(s: State)
  {
    var initial := s.counters.nowUsable;
    && Quiet(s)
    && (forall b :: b in s.heap ==> s.heap[b] > 0)
    && Fits(initial) && s.counters == Counters(initial, 0, initial, initial)
    && s.truth == Truth(Total(s.heap) - initial, Overhead(|s.heap|), 0, 0, {initial}, {0})
  }

  lemma {:induction false} AlwaysConserved(states: seq<State>, events: seq<Event>, i: nat)
    requires IsRun(states, events) && i < |states| && Started(states[0])
    ensures Disciplined(states[i]) && Conserved(states[i])
  {
    if i == 0 {
      var s := states[0];
      NothingPending(s.pcs, false);
      NothingPending(s.pcs, true);
      assert forall t :: 0 <= t < |s.pcs| ==> Looked(s.heap, s.pcs[t]);
    } else {
      hide IsRun, Next, Enabled, Disciplined, Conserved;
      StepOfRun(states, events, i - 1);
      AlwaysConserved(states, events, i - 1);
      StaysDisciplined(states[i - 1], events[i - 1].thread, events[i - 1].action);
      StaysConserved(states[i - 1], events[i - 1].thread, events[i - 1].action);
    }
  }

  /** The step sets the usable bytes, or the overhead, to zero. */
  predicate Zeroes(s: State, e: Event, overhead: bool)
  {
    && e.thread < |s.pcs|
    && if overhead then e.action == Go && s.pcs[e.thread].ResetOverhead? else e.action == CallResetNow
  }

  /** None of the steps from `i` up to `j` does. */
  predicate NoneZeroes(states: seq<State>, events: seq<Event>, i: nat, j: nat, overhead: bool)
    requires j <= |events| <= |states|
  {
    forall k :: i <= k < j ==> !Zeroes(states[k], events[k], overhead)
  }

  lemma {:induction false} StepKeepsBase(s: State, e: Event)
    requires Enabled(s, e.thread, e.action)
    ensures var next := Next(s, e.thread, e.action);
            && (!Zeroes(s, e, false) ==> next.truth.baseUsable == s.truth.baseUsable)
            && (!Zeroes(s, e, true) ==> next.truth.baseOverhead == s.truth.baseOverhead)
  {
    hide Wrap, FetchAndAdd, AsSize, Total, Overhead, Pending;
  }

  lemma {:induction false} BaseStays(states: seq<State>, events: seq<Event>, i: nat, j: nat)
    requires IsRun(states, events) && i <= j <= |events|
    ensures NoneZeroes(states, events, i, j, false) ==> states[j].truth.baseUsable == states[i].truth.baseUsable
    ensures NoneZeroes(states, events, i, j, true) ==> states[j].truth.baseOverhead == states[i].truth.baseOverhead
  {
    hide IsRun, Next, Enabled, NoneZeroes, Zeroes;
    StepOfRun(states, events, i);
    if i < j {
      StepOfRun(states, events, j - 1);
      BaseStays(states, events, i, j - 1);
      StepKeepsBase(states[j - 1], events[j - 1]);
      NoneZeroesStep(states, events, i, j - 1, false);
      NoneZeroesStep(states, events, i, j - 1, true);
    }
  }

  /** The bytes of the block whose `realloc` fails in a step. */
  function BytesMissed(s: State, e: Event): nat
    requires Enabled(s, e.thread, e.action)
  {
    var pc := s.pcs[e.thread];
    if e.action == Fail && pc.target.Some? && pc.target.value in s.heap then s.heap[pc.target.value] else 0
  }

  /** Whether a step is a `realloc` that frees a block, or that fails to allocate one. */
  predicate ChunkMissed(s: State, e: Event)
    requires Enabled(s, e.thread, e.action)
  {
    e.action == Release || (e.action == Fail && s.pcs[e.thread].target.None?)
  }

  /** The bytes in all blocks whose `realloc` failed in the first `n` steps. */
  ghost function AllBytesMissed(states: seq<State>, events: seq<Event>, n: nat): nat
    requires IsRun(states, events) && n <= |events|
  {
    if n == 0 then 0
    else
      assert IsStep(states[n - 1], events[n - 1], states[n]);
      AllBytesMissed(states, events, n - 1) + BytesMissed(states[n - 1], events[n - 1])
  }

  /** How often `realloc` freed a block, or failed to allocate one, in the first `n` steps. */
  ghost function ChunksMissed(states: seq<State>, events: seq<Event>, n: nat): nat
    requires IsRun(states, events) && n <= |events|
  {
    if n == 0 then 0
    else
      assert IsStep(states[n - 1], events[n - 1], states[n]);
      ChunksMissed(states, events, n - 1) + if ChunkMissed(states[n - 1], events[n - 1]) then 1 else 0
  }

  lemma {:induction false} StepMisses(s: State, e: Event)
    requires Disciplined(s) && Enabled(s, e.thread, e.action)
    ensures var next := Next(s, e.thread, e.action);
            && next.truth.lost == s.truth.lost + BytesMissed(s, e)
            && next.truth.extra == s.truth.extra + if ChunkMissed(s, e) then CHUNK_OVERHEAD else 0
  {
    hide Wrap, FetchAndAdd, AsSize, Total, Overhead, Pending;
    assert Looked(s.heap, s.pcs[e.thread]);
  }

  lemma {:induction false} SumsStep(states: seq<State>, events: seq<Event>, n: nat)
    requires IsRun(states, events) && 0 < n <= |events|
    ensures Enabled(states[n - 1], events[n - 1].thread, events[n - 1].action)
    ensures AllBytesMissed(states, events, n) ==
            AllBytesMissed(states, events, n - 1) + BytesMissed(states[n - 1], events[n - 1])
    ensures ChunksMissed(states, events, n) ==
            ChunksMissed(states, events, n - 1) + if ChunkMissed(states[n - 1], events[n - 1]) then 1 else 0
  {
    hide Next, Enabled, BytesMissed, ChunkMissed;
    StepOfRun(states, events, n - 1);
  }

  lemma {:induction false} RunMissesNext(states: seq<State>, events: seq<Event>, n: nat)
    requires IsRun(states, events) && 0 < n <= |events| && Disciplined(states[n - 1])
    requires states[n - 1].truth.lost == AllBytesMissed(states, events, n - 1)
    requires states[n - 1].truth.extra == Overhead(ChunksMissed(states, events, n - 1))
    ensures states[n].truth.lost == AllBytesMissed(states, events, n)
    ensures states[n].truth.extra == Overhead(ChunksMissed(states, events, n))
  {
    hide IsRun, Next, Enabled, Disciplined, BytesMissed, ChunkMissed, AllBytesMissed, ChunksMissed;
    StepOfRun(states, events, n - 1);
    StepMisses(states[n - 1], events[n - 1]);
    SumsStep(states, events, n);
  }

  /** By how much a run has miscounted is decided by the calls of `realloc` in it. */
  lemma {:induction false} RunMisses(states: seq<State>, events: seq<Event>, n: nat)
    requires IsRun(states, events) && n <= |events| && Started(states[0])
    ensures states[n].truth.lost == AllBytesMissed(states, events, n)
    ensures states[n].truth.extra == Overhead(ChunksMissed(states, events, n))
  {
    if n > 0 {
      hide IsRun, Next, Enabled, Disciplined, Conserved, Started, AllBytesMissed, ChunksMissed, Overhead;
      StepOfRun(states, events, n - 1);
      RunMisses(states, events, n - 1);
      AlwaysConserved(states, events, n - 1);
      RunMissesNext(states, events, n);
    }
  }

  /** The allocated bytes, without those that a call in progress has yet to add. */
  ghost function UsableCounted(s: State): int { Total(s.heap) - Pending(s.pcs, false) }

  ghost function OverheadCounted(s: State): int { CHUNK_OVERHEAD * |s.heap| - Pending(s.pcs, true) }

  lemma {:induction false} QuietCounted(s: State)
    requires Quiet(s)
    ensures UsableCounted(s) == Total(s.heap) && OverheadCounted(s) == CHUNK_OVERHEAD * |s.heap|
  {
    hide Total;
    NothingPending(s.pcs, false);
    NothingPending(s.pcs, true);
  }

  /** A counter changes like the amount it follows, exactly if what has been missed meanwhile is a
      multiple of its range. */
  lemma {:induction false} CounterFollows(truth: int, later: int, change: int, missed: int)
    requires later == truth + change + missed
    ensures Wrap(later) == Wrap(Wrap(truth) + change) <==> missed % MODULUS == 0
  {
    SameCounter(Wrap(truth) + change, truth + change);
    SameCounter(later, truth + change);
    assert Wrap(truth) + change - (truth + change) == 0 - (truth - Wrap(truth));
    Opposite(truth - Wrap(truth));
    hide Wrap;
  }

  /** From any time of a run to any later one without a reset between them, the usable bytes change
      like what is allocated and counted, exactly if the blocks whose `realloc` failed meanwhile add
      up to a multiple of 2^32 bytes. */
  lemma {:induction false} UsableFollows(states: seq<State>, events: seq<Event>, i: nat, j: nat)
    requires IsRun(states, events) && Started(states[0]) && i <= j <= |events|
    requires NoneZeroes(states, events, i, j, false)
    ensures states[j].counters.nowUsable
              == Wrap(states[i].counters.nowUsable + (UsableCounted(states[j]) - UsableCounted(states[i])))
            <==> (AllBytesMissed(states, events, j) - AllBytesMissed(states, events, i)) % MODULUS == 0
  {
    hide IsRun, Started, Disciplined, NoneZeroes, Wrap, Total, Overhead, Pending, AllBytesMissed, ChunksMissed;
    StepOfRun(states, events, 0);
    AlwaysConserved(states, events, i);
    AlwaysConserved(states, events, j);
    BaseStays(states, events, i, j);
    RunMisses(states, events, i);
    RunMisses(states, events, j);
    var change := UsableCounted(states[j]) - UsableCounted(states[i]);
    var missed := AllBytesMissed(states, events, j) - AllBytesMissed(states, events, i);
    CounterFollows(UsableTruth(states[i]), UsableTruth(states[j]), change, 0 - missed);
    Opposite(missed);
  }

  /** So does the overhead, exactly if `realloc` freed a block, or failed to allocate one, a multiple
      of 2^28 times. */
  lemma {:induction false} OverheadFollows(states: seq<State>, events: seq<Event>, i: nat, j: nat)
    requires IsRun(states, events) && Started(states[0]) && i <= j <= |events|
    requires NoneZeroes(states, events, i, j, true)
    ensures states[j].counters.nowOverhead
              == Wrap(states[i].counters.nowOverhead + (OverheadCounted(states[j]) - OverheadCounted(states[i])))
            <==> (ChunksMissed(states, events, j) - ChunksMissed(states, events, i)) % 0x1000_0000 == 0
  {
    hide IsRun, Started, Disciplined, NoneZeroes, Wrap, Total, Overhead, Pending, AllBytesMissed, ChunksMissed;
    StepOfRun(states, events, 0);
    AlwaysConserved(states, events, i);
    AlwaysConserved(states, events, j);
    BaseStays(states, events, i, j);
    RunMisses(states, events, i);
    RunMisses(states, events, j);
    OverheadIsProduct(|states[i].heap|);
    OverheadIsProduct(|states[j].heap|);
    OverheadIsProduct(ChunksMissed(states, events, i));
    OverheadIsProduct(ChunksMissed(states, events, j));
    var change := OverheadCounted(states[j]) - OverheadCounted(states[i]);
    var missed := ChunksMissed(states, events, j) - ChunksMissed(states, events, i);
    CounterFollows(OverheadTruth(states[i]), OverheadTruth(states[j]), change, CHUNK_OVERHEAD * missed);
    SixteenTimes(missed);
  }

  lemma {:induction false} SixteenTimes(n: int)
    ensures (CHUNK_OVERHEAD * n) % MODULUS == 0 <==> n % 0x1000_0000 == 0
  {}

  // ----- resets

  /** What the two steps of setting the counters to zero do, in any state. */
  lemma {:induction false} ZeroesOne(s: State, e: Event)
    requires Enabled(s, e.thread, e.action)
    ensures var next := Next(s, e.thread, e.action);
            && (Zeroes(s, e, false) ==>
                  && next.counters == s.counters.(nowUsable := 0)
                  && next.heap == s.heap && next.pcs == s.pcs[e.thread := ResetOverhead])
            && (Zeroes(s, e, true) ==>
                  && next.counters == s.counters.(nowOverhead := 0)
                  && next.heap == s.heap && next.pcs == s.pcs[e.thread := Idle])
  {
    hide Total, Pending, Overhead, FetchAndAdd, AsSize, Wrap;
  }

  lemma {:induction false} ResetCounts(s: State, e: Event)
    requires Enabled(s, e.thread, e.action)
    ensures var next := Next(s, e.thread, e.action);
            && (Zeroes(s, e, false) ==> next.counters.nowUsable == 0 && UsableCounted(next) == UsableCounted(s))
            && (Zeroes(s, e, true) ==> next.counters.nowOverhead == 0 && OverheadCounted(next) == OverheadCounted(s))
            && (Zeroes(s, e, false) || Zeroes(s, e, true) ==> BytesMissed(s, e) == 0 && !ChunkMissed(s, e))
  {
    hide Total, Pending, Next;
    ZeroesOne(s, e);
    var pc := if Zeroes(s, e, false) then ResetOverhead else Idle;
    PendingUpdate(s.pcs, e.thread, pc, false);
    PendingUpdate(s.pcs, e.thread, pc, true);
  }

  lemma {:induction false} NothingMissed(states: seq<State>, events: seq<Event>, n: nat)
    requires IsRun(states, events) && n < |events|
    requires Zeroes(states[n], events[n], false) || Zeroes(states[n], events[n], true)
    ensures AllBytesMissed(states, events, n + 1) == AllBytesMissed(states, events, n)
    ensures ChunksMissed(states, events, n + 1) == ChunksMissed(states, events, n)
  {
    hide IsRun, Next, Enabled, Zeroes, AllBytesMissed, ChunksMissed, BytesMissed, ChunkMissed;
    StepOfRun(states, events, n);
    ResetCounts(states[n], events[n]);
    SumsStep(states, events, n + 1);
  }

  /** Whatever threads do at the same time: at the end of a run that last sets the usable bytes to
      zero in step `r`, they are, as a 32-bit number, what has been allocated since then and counted,
      exactly if the blocks whose `realloc` failed since then add up to a multiple of 2^32 bytes. */
  lemma {:induction false} UsableSinceReset(states: seq<State>, events: seq<Event>, r: nat)
    requires IsRun(states, events) && Started(states[0]) && r < |events|
    requires Zeroes(states[r], events[r], false) && NoneZeroes(states, events, r + 1, |events|, false)
    ensures states[|events|].counters.nowUsable == Wrap(UsableCounted(states[|events|]) - UsableCounted(states[r]))
            <==> (AllBytesMissed(states, events, |events|) - AllBytesMissed(states, events, r)) % MODULUS == 0
  {
    hide IsRun, Next, Enabled, Started, Zeroes, NoneZeroes, UsableCounted, OverheadCounted, Wrap, AllBytesMissed, ChunksMissed;
    StepOfRun(states, events, r);
    ResetCounts(states[r], events[r]);
    NothingMissed(states, events, r);
    UsableFollows(states, events, r + 1, |events|);
  }

  lemma {:induction false} OverheadSinceReset(states: seq<State>, events: seq<Event>, r: nat)
    requires IsRun(states, events) && Started(states[0]) && r < |events|
    requires Zeroes(states[r], events[r], true) && NoneZeroes(states, events, r + 1, |events|, true)
    ensures states[|events|].counters.nowOverhead == Wrap(OverheadCounted(states[|events|]) - OverheadCounted(states[r]))
            <==> (ChunksMissed(states, events, |events|) - ChunksMissed(states, events, r)) % 0x1000_0000 == 0
  {
    hide IsRun, Next, Enabled, Started, Zeroes, NoneZeroes, UsableCounted, OverheadCounted, Wrap, AllBytesMissed, ChunksMissed;
    StepOfRun(states, events, r);
    ResetCounts(states[r], events[r]);
    NothingMissed(states, events, r);
    OverheadFollows(states, events, r + 1, |events|);
  }

  /** When no call is in progress, and a thread that nobody interrupted was the last to set the
      counters to zero: the usable bytes are, as a 32-bit number, what has been allocated since
      then, exactly if the blocks whose `realloc` failed since then add up to a multiple of 2^32
      bytes; and the overhead is, exactly if `realloc` freed a block, or failed to allocate one, a
      multiple of 2^28 times. */
  lemma {:induction false} QuietCountersExact(states: seq<State>, events: seq<Event>, r: nat, t: nat)
    requires IsRun(states, events) && Started(states[0]) && r + 1 < |events|
    requires Quiet(states[r]) && events[r] == Event(t, CallResetNow) && events[r + 1] == Event(t, Go)
    requires forall k :: r < k < |events| ==> events[k].action != CallResetNow
    requires Quiet(states[|events|])
    ensures var first, last := states[r], states[|events|];
            && (last.counters.nowUsable == Wrap(Total(last.heap) - Total(first.heap))
                <==> (AllBytesMissed(states, events, |events|) - AllBytesMissed(states, events, r)) % MODULUS == 0)
            && (last.counters.nowOverhead == Wrap(CHUNK_OVERHEAD * |last.heap| - CHUNK_OVERHEAD * |first.heap|)
                <==> (ChunksMissed(states, events, |events|) - ChunksMissed(states, events, r)) % 0x1000_0000 == 0)
  {
    hide IsRun, Next, Enabled, Started, Zeroes, Total, UsableCounted, OverheadCounted, Wrap, AllBytesMissed, ChunksMissed;
    StepOfRun(states, events, r);
    LastReset(states, events, r, t);
    UsableSinceReset(states, events, r);
    OverheadSinceReset(states, events, r + 1);
    NothingMissed(states, events, r);
    QuietCounted(states[r]);
    QuietCounted(states[|events|]);
  }

  predicate NoneResets(pcs: seq<Pc>)
  {
    forall t :: 0 <= t < |pcs| ==> !pcs[t].ResetOverhead?
  }

  lemma {:induction false} NoResetBegins(s: State, e: Event)
    requires Enabled(s, e.thread, e.action) && e.action != CallResetNow && NoneResets(s.pcs)
    ensures NoneResets(Next(s, e.thread, e.action).pcs) && !Zeroes(s, e, true)
  {
    hide Wrap, FetchAndAdd, AsSize, Total, Overhead, Pending;
  }

  lemma {:induction false} NoneZeroesStep(states: seq<State>, events: seq<Event>, i: nat, j: nat, overhead: bool)
    requires i <= j < |events| < |states|
    ensures NoneZeroes(states, events, i, j + 1, overhead) <==>
            NoneZeroes(states, events, i, j, overhead) && !Zeroes(states[j], events[j], overhead)
  {
    hide Zeroes;
  }

  lemma {:induction false} NoMoreResets(states: seq<State>, events: seq<Event>, i: nat, j: nat)
    requires IsRun(states, events) && i <= j <= |events| && NoneResets(states[i].pcs)
    requires forall k :: i <= k < |events| ==> events[k].action != CallResetNow
    ensures NoneResets(states[j].pcs) && NoneZeroes(states, events, i, j, true)
  {
    hide IsRun, Next, Enabled, NoneResets, NoneZeroes, Zeroes;
    StepOfRun(states, events, i);
    if i < j {
      StepOfRun(states, events, j - 1);
      NoMoreResets(states, events, i, j - 1);
      NoResetBegins(states[j - 1], events[j - 1]);
      NoneZeroesStep(states, events, i, j - 1, true);
    } else {
      NoZeroesNowhere(states, events, i, true);
    }
  }

  lemma {:induction false} NoZeroesNowhere(states: seq<State>, events: seq<Event>, i: nat, overhead: bool)
    requires i <= |events| < |states|
    ensures NoneZeroes(states, events, i, i, overhead)
  {
    hide Zeroes;
  }

  lemma {:induction false} LastReset(states: seq<State>, events: seq<Event>, r: nat, t: nat)
    requires IsRun(states, events) && r + 1 < |events|
    requires Quiet(states[r]) && events[r] == Event(t, CallResetNow) && events[r + 1] == Event(t, Go)
    requires forall k :: r < k < |events| ==> events[k].action != CallResetNow
    ensures Zeroes(states[r], events[r], false) && NoneZeroes(states, events, r + 1, |events|, false)
    ensures Zeroes(states[r + 1], events[r + 1], true) && NoneZeroes(states, events, r + 2, |events|, true)
    ensures OverheadCounted(states[r + 1]) == OverheadCounted(states[r])
  {
    hide IsRun, Next, Enabled, Total;
    StepOfRun(states, events, r);
    StepOfRun(states, events, r + 1);
    EnabledThread(states[r], events[r]);
    ZeroesOne(states[r], events[r]);
    ZeroesOne(states[r + 1], events[r + 1]);
    PendingUpdate(states[r].pcs, t, ResetOverhead, true);
    NoMoreResets(states, events, r + 2, |events|);
  }

  lemma {:induction false} EnabledThread(s: State, e: Event)
    requires Enabled(s, e.thread, e.action)
    ensures e.thread < |s.pcs|
  {}

  lemma {:induction false} Opposite(n: int)
    ensures (0 - n) % MODULUS == 0 <==> n % MODULUS == 0
  {}

  /** Nothing is miscounted as long as `realloc` neither fails nor is used to free a block. */
  lemma {:induction false} NothingMiscounted(states: seq<State>, events: seq<Event>, i: nat)
    requires IsRun(states, events) && i < |states|
    requires forall k :: 0 <= k < |events| ==> events[k].action != Fail && events[k].action != Release
    ensures states[i].truth.lost == states[0].truth.lost && states[i].truth.extra == states[0].truth.extra
  {
    if i > 0 {
      NothingMiscounted(states, events, i - 1);
      assert IsStep(states[i - 1], events[i - 1], states[i]);
    }
  }

  /** A failing `realloc` makes the bytes of its block disappear from the counter; one that
      frees its block leaves the overhead of that block behind. */
  lemma {:induction false} ReallocMiscounts(s: State, t: nat, a: Action)
    requires Disciplined(s) && Enabled(s, t, a) && (a == Fail || a == Release)
    ensures var missed, next := s.pcs[t].target, Next(s, t, a);
            && next.truth.lost - s.truth.lost ==
               (if a == Fail && missed.Some? then s.heap[missed.value] else 0)
            && next.truth.extra - s.truth.extra ==
               (if a == Fail && missed.Some? then 0 else CHUNK_OVERHEAD)
  {
    assert Looked(s.heap, s.pcs[t]);
  }

  // ----- peaks

  ghost predicate SeenBy(truth: Truth, pc: Pc)
  {
    match pc
    case PeakUsableCompare(u) => u in truth.usables
    case PeakUsableStore(u, _) => u in truth.usables
    case PeakTotalOverhead(u) => u in truth.usables
    case PeakTotalCompare(u, o) => u in truth.usables && o in truth.overheads
    case PeakTotalOverheadAgain(u) => u in truth.usables
    case PeakTotalStore(u, o) => u in truth.usables && o in truth.overheads
    case _ => true
  }

  /** The counters are values that they have had; each peak is a value that the counter it
      follows has had, or the sum of two such values. */
  ghost predicate CountersSeen(c: Counters, truth: Truth)
  {
    && c.nowUsable in truth.usables
    && c.nowOverhead in truth.overheads
    && c.peakUsable in truth.usables
    && SumSeen(truth, c.peakTotal)
  }

  ghost predicate SumSeen(truth: Truth, total: int)
  {
    exists u, o :: u in truth.usables && o in truth.overheads && total == Wrap(u + o)
  }

  lemma {:induction false} SumStaysSeen(before: Truth, after: Truth, total: int)
    requires SumSeen(before, total) && before.usables <= after.usables && before.overheads <= after.overheads
    ensures SumSeen(after, total)
  {
    var u, o :| u in before.usables && o in before.overheads && total == Wrap(u + o);
    assert u in after.usables && o in after.overheads;
  }

  ghost predicate PeaksSeen(s: State)
  {
    CountersSeen(s.counters, s.truth) && forall t :: 0 <= t < |s.pcs| ==> SeenBy(s.truth, s.pcs[t])
  }

  lemma {:induction false} StepSeen(s: State, t: nat, a: Action)
    requires Enabled(s, t, a) && CountersSeen(s.counters, s.truth) && SeenBy(s.truth, s.pcs[t])
    ensures var next := Next(s, t, a);
            && s.truth.usables <= next.truth.usables && s.truth.overheads <= next.truth.overheads
            && CountersSeen(next.counters, next.truth)
            && SeenBy(next.truth, next.pcs[t])
  {
    hide Total, Pending, Overhead, FetchAndAdd, AsSize, Wrap, SeenBy, SumSeen;
    var next := Next(s, t, a);
    PcSeen(s, t, a);
    if next.counters.peakTotal == s.counters.peakTotal {
      SumStaysSeen(s.truth, next.truth, s.counters.peakTotal);
    }
  }

  lemma {:induction false} PcSeen(s: State, t: nat, a: Action)
    requires Enabled(s, t, a) && SeenBy(s.truth, s.pcs[t])
    requires s.counters.nowUsable in s.truth.usables && s.counters.nowOverhead in s.truth.overheads
    ensures SeenBy(Next(s, t, a).truth, Next(s, t, a).pcs[t])
    ensures s.pcs[t].PeakUsableStore? ==> s.pcs[t].usable in s.truth.usables
    ensures s.pcs[t].PeakTotalStore? ==> SumSeen(s.truth, Wrap(s.pcs[t].usable + s.pcs[t].overhead))
  {
    hide Total, Pending, Overhead, FetchAndAdd, AsSize, Wrap;
  }

  lemma {:induction false} PeaksStaySeen(s: State, t: nat, a: Action)
    requires PeaksSeen(s) && Enabled(s, t, a)
    ensures PeaksSeen(Next(s, t, a))
  {
    var next := Next(s, t, a);
    StepSeen(s, t, a);
    OnlyOneMoves(s, t, a);
    hide CountersSeen, Next;
    forall k | 0 <= k < |next.pcs| ensures SeenBy(next.truth, next.pcs[k]) {
      if k != t {
        assert SeenBy(s.truth, s.pcs[k]);
      }
    }
  }

  lemma {:induction false} OnlyOneMoves(s: State, t: nat, a: Action)
    requires Enabled(s, t, a)
    ensures |Next(s, t, a).pcs| == |s.pcs|
    ensures forall k :: 0 <= k < |s.pcs| && k != t ==> Next(s, t, a).pcs[k] == s.pcs[k]
  {
    hide Next, Enabled;
    EnabledThread(s, Event(t, a));
    NextMoves(s, t, a);
  }

  lemma {:induction false} AlwaysSeen(states: seq<State>, events: seq<Event>, i: nat)
    requires IsRun(states, events) && i < |states| && Started(states[0])
    ensures PeaksSeen(states[i])
  {
    if i == 0 {
      SeenAtStart(states[0]);
    } else {
      hide IsRun, Next, Enabled, PeaksSeen;
      StepOfRun(states, events, i - 1);
      AlwaysSeen(states, events, i - 1);
      PeaksStaySeen(states[i - 1], events[i - 1].thread, events[i - 1].action);
    }
  }

  lemma {:induction false} SeenAtStart(s: State)
    requires Started(s)
    ensures PeaksSeen(s)
  {
    hide Total, Pending, Overhead;
    var initial := s.counters.nowUsable;
    assert Wrap(initial + 0) == initial && initial in s.truth.usables && 0 in s.truth.overheads;
    assert SumSeen(s.truth, initial);
  }

  /** At some time up to the `i`-th, the counter had that value. */
  ghost predicate HadUsable(states: seq<State>, i: nat, value: int)
    requires i < |states|
  {
    exists k :: 0 <= k <= i && states[k].counters.nowUsable == value
  }

  ghost predicate HadOverhead(states: seq<State>, i: nat, value: int)
    requires i < |states|
  {
    exists k :: 0 <= k <= i && states[k].counters.nowOverhead == value
  }

  lemma {:induction false} StepHas(s: State, t: nat, a: Action)
    requires Enabled(s, t, a)
    ensures var next := Next(s, t, a);
            && next.truth.usables <= s.truth.usables + {next.counters.nowUsable}
            && next.truth.overheads <= s.truth.overheads + {next.counters.nowOverhead}
  {
    hide Total, Pending, Overhead, FetchAndAdd, AsSize, Wrap;
  }

  lemma {:induction false} SeenIsHad(states: seq<State>, events: seq<Event>, i: nat)
    requires IsRun(states, events) && i < |states| && Started(states[0])
    ensures forall u :: u in states[i].truth.usables ==> HadUsable(states, i, u)
    ensures forall o :: o in states[i].truth.overheads ==> HadOverhead(states, i, o)
  {
    hide Total, Overhead, IsRun, Next, Enabled;
    if i > 0 {
      hide Started, HadUsable, HadOverhead;
      StepOfRun(states, events, i - 1);
      SeenIsHad(states, events, i - 1);
      StepHas(states[i - 1], events[i - 1].thread, events[i - 1].action);
      HadStill(states, i);
    }
  }

  lemma {:induction false} HadStill(states: seq<State>, i: nat)
    requires 0 < i < |states|
    ensures HadUsable(states, i, states[i].counters.nowUsable)
    ensures HadOverhead(states, i, states[i].counters.nowOverhead)
    ensures forall u :: HadUsable(states, i - 1, u) ==> HadUsable(states, i, u)
    ensures forall o :: HadOverhead(states, i - 1, o) ==> HadOverhead(states, i, o)
  {}

  /** However threads interrupt each other, the first peak is a value that the usable bytes have had,
      and the second one the sum of values that the two counters have had, though not always at the
      same time. */
  lemma {:induction false} PeaksWereHad(states: seq<State>, events: seq<Event>, i: nat)
    requires IsRun(states, events) && i < |states| && Started(states[0])
    ensures HadUsable(states, i, states[i].counters.peakUsable)
    ensures exists u, o :: HadUsable(states, i, u) && HadOverhead(states, i, o)
                           && states[i].counters.peakTotal == Wrap(u + o)
  {
    hide IsRun, Started, HadUsable, HadOverhead, Wrap;
    AlwaysSeen(states, events, i);
    SeenIsHad(states, events, i);
    var truth, total := states[i].truth, states[i].counters.peakTotal;
    assert SumSeen(truth, total);
    var u, o :| u in truth.usables && o in truth.overheads && total == Wrap(u + o);
    assert HadUsable(states, i, u) && HadOverhead(states, i, o);
  }
}
