/**
 When the memory pool loses blocks: `returnRange` looks for the end of the returned
 chain within a bound (src/memory/CentralCache.cpp:119-131), and what lies behind is
 dropped. The bound is 0 after a `deallocate` with size 0 (src/memory/ThreadCache.cpp:98,
 139), and may be too small after failed fetches, each of which leaves the counter one
 too low (lines 22-34, 76-77).
 */
module PoolLoss {
  import opened Sequences
  import opened FreeLists
  import opened SizeClasses
  import opened PoolOwnership
  import opened PoolSafety
  import PoolTransfers

  /** A step that drops blocks: the return of a chain beyond the bound, except that a
      single block is always reached. */
  predicate Drops(v: View, e: Step) {
    e.Return? && v.At(e.tid).Returning? && |v.List(InFlight(e.tid))| > Max(v.At(e.tid).limit, 1)
  }

  predicate IsLost(v: View, a: Addr) { a in v.owner && v.owner[a] == Lost }

  ghost predicate AnyLost(v: View) { exists a :: IsLost(v, a) }

  /** The blocks that a step drops: those behind the bound. */
  function Dropped(v: View, e: Step): seq<Addr> {
    if Drops(v, e) then v.List(InFlight(e.tid))[Max(v.At(e.tid).limit, 1)..] else []
  }

  /** A block is lost by a step if and only if it lies behind the bound in a returned
      chain; what is lost stays lost. */
  lemma LostByStepIff(v: View, e: Step, a: Addr)
    requires Invariant(v) && Enabled(v, e)
    ensures IsLost(Apply(v, e), a) <==> IsLost(v, a) || a in Dropped(v, e)
  {
    match e
    case Alloc(t, size) => AllocLosesNothing(v, t, size, a);
    case Fetch(t, span) => FetchLosesNothing(v, t, span, a);
    case FetchFails(t) =>
    case Finish(t) => FinishLosesNothing(v, t, a);
    case Free(t, ptr, size) => FreeLosesNothing(v, t, ptr, size, a);
    case Return(t) => ReturnLosesIff(v, t, a);
    case Write(_, _) =>
  }

  lemma AllocLosesNothing(v: View, t: nat, size: nat, a: Addr)
    requires Owned(v.lists, v.owner)
    ensures IsLost(AllocStep(v, t, size), a) <==> IsLost(v, a)
  {
    var s := v.List(Cached(t, GetIndex(Requested(size))));
    if s != [] { assert s[..1][0] in s; }
  }

  lemma FetchLosesNothing(v: View, t: nat, span: Addr, a: Addr)
    requires Invariant(v) && Enabled(v, Fetch(t, span))
    ensures IsLost(FetchStep(v, t, span), a) <==> IsLost(v, a)
  {
    var i := v.At(t).index;
    var c := v.List(Shared(i));
    if c == [] {
      var n := CarvedForThread(i);
      var mine, rest := Blocks(span, Bytes(i), 0, n), Blocks(span, Bytes(i), n, CarvedBlocks(i));
      BlocksSplit(span, Bytes(i), n, CarvedBlocks(i));
      CarvePlaced(v, span, i, mine + rest);
      assert a in mine || a in rest ==> a in mine + rest;
    } else {
      SplitDisjoint(c, Min(BatchNum(i), |c|));
    }
  }

  lemma FinishLosesNothing(v: View, t: nat, a: Addr)
    requires Owned(v.lists, v.owner) && v.At(t).Fetched?
    ensures IsLost(FinishStep(v, t), a) <==> IsLost(v, a)
  {
  }

  lemma FreeLosesNothing(v: View, t: nat, ptr: Addr, size: nat, a: Addr)
    requires Invariant(v) && Enabled(v, Free(t, ptr, size))
    ensures IsLost(FreeStep(v, t, ptr, size), a) <==> IsLost(v, a)
  {
    PushKeeps(v, t, ptr, size);
    var w, p := PushStep(v, t, ptr, size), Cached(t, GetIndex(size));
    assert IsLost(w, a) <==> IsLost(v, a);
    if Splits(w, p) { SplitDisjoint(w.List(p), KeepNum(w.Stored(p))); }
  }

  lemma ReturnLosesIff(v: View, t: nat, a: Addr)
    requires Invariant(v) && v.At(t).Returning?
    ensures IsLost(ReturnStep(v, t), a) <==> IsLost(v, a) || a in Dropped(v, Return(t))
  {
    assert PhaseOk(v, t);
    var s, n := v.List(InFlight(t)), Reach(v, t);
    SplitDisjoint(s, n);
    assert a in s ==> a in v.owner;
  }

  // --------------------------------------------------------------- the bound

  /** A free that starts a return hands on a bound that is too small if and only if its
      size was 0 and two blocks or more are returned, or its counter is so far below the
      list that the bytes of the blocks it counts as returned are fewer than the blocks
      that are returned. */
  lemma BoundIsTooSmallIff(v: View, t: nat, ptr: Addr, size: nat)
    requires Invariant(v) && Enabled(v, Free(t, ptr, size)) && 64 * (v.steps + 1) < WORD
    requires FreeStep(v, t, ptr, size).At(t).Returning?
    ensures var w, x, p := PushStep(v, t, ptr, size), FreeStep(v, t, ptr, size), Cached(t, GetIndex(size));
            var kept := KeepNum(w.Stored(p));
            && w.Stored(p) == w.Count(p) && |x.List(InFlight(t))| == |w.List(p)| - kept
            && (Drops(x, Return(t)) <==>
                  |w.List(p)| - kept > if size == 0 then 1 else (w.Count(p) - kept) * Bytes(GetIndex(size)))
            && (Drops(x, Return(t)) ==> size == 0 || v.Failures(p) > 0)
  {
    var i := GetIndex(size);
    ReturnStarts(v, t, ptr, size);
    FreedSize(size);
    PushKeeps(v, t, ptr, size);
    BoundOfCut(PushStep(v, t, ptr, size), t, i, RoundUp(size));
  }

  /** The bound of a cut list, for blocks of its class or for size 0. */
  lemma BoundOfCut(w: View, t: nat, i: nat, z: nat)
    requires Invariant(w) && w.At(t).Idle? && i < FREE_LIST_SIZE && 64 * w.steps < WORD
    requires Splits(w, Cached(t, i)) && (z == 0 || z == Bytes(i))
    ensures var p := Cached(t, i);
            var kept := KeepNum(w.Stored(p));
            && w.Stored(p) == w.Count(p)
            && Max(ReturnLimit(w.Stored(p), z), 1) == (if z == 0 then 1 else (w.Count(p) - kept) * Bytes(i))
            && (z > 0 && w.Failures(p) == 0 ==> |w.List(p)| - kept <= ReturnLimit(w.Stored(p), z))
  {
    var p := Cached(t, i);
    LimitReachesTheEnd(w, t, i);
    BoundIsPositive(w.Stored(p), Bytes(i));
    ZeroLimit(w.Stored(p));
  }

  /** What a free that starts a return hands on. */
  lemma ReturnStarts(v: View, t: nat, ptr: Addr, size: nat)
    requires v.At(t).Idle? && FreeStep(v, t, ptr, size).At(t).Returning?
    ensures var w, x, p := PushStep(v, t, ptr, size), FreeStep(v, t, ptr, size), Cached(t, GetIndex(size));
            && Splits(w, p) && w.At(t).Idle? && w.Failures(p) == v.Failures(p)
            && x.At(t).limit == ReturnLimit(w.Stored(p), RoundUp(size))
            && x.List(InFlight(t)) == w.List(p)[KeepNum(w.Stored(p))..]
  {
  }

  /** Above the threshold three quarters of the counter are returned. */
  lemma BoundIsPositive(stored: nat, z: nat)
    requires stored > THRESHOLD && z >= 1
    ensures (stored - KeepNum(stored)) * z >= 1
  {
  }

  // ---------------------------------------------------------------------- runs

  /** In every run, blocks are lost if and only if some step drops blocks. */
  lemma {:induction false} RunLosesIff(states: seq<View>, events: seq<Step>, k: nat)
    requires Run(states, events) && k < |states| && 64 * |states| < WORD
    ensures AnyLost(states[k]) <==> exists j :: 0 <= j < k && Drops(states[j], events[j])
  {
    if k > 0 {
      RunLosesIff(states, events, k - 1);
      LossAfterStep(states, events, k - 1);
    }
  }

  lemma LossAfterStep(states: seq<View>, events: seq<Step>, k: nat)
    requires Run(states, events) && k < |events| && 64 * |states| < WORD
    ensures AnyLost(states[k + 1]) <==> AnyLost(states[k]) || Drops(states[k], events[k])
  {
    RunIsSafe(states, events, k);
    assert StepAt(states, events, k);
    StepLosesIff(states[k], events[k]);
  }

  lemma StepLosesIff(v: View, e: Step)
    requires Invariant(v) && Enabled(v, e)
    ensures AnyLost(Apply(v, e)) <==> AnyLost(v) || Drops(v, e)
  {
    var w := Apply(v, e);
    if a :| IsLost(w, a) {
      LostByStepIff(v, e, a);
    }
    if a :| IsLost(v, a) {
      LostByStepIff(v, e, a);
      assert IsLost(w, a);
    }
    if Drops(v, e) {
      var a := Dropped(v, e)[0];
      assert a in Dropped(v, e);
      LostByStepIff(v, e, a);
      assert IsLost(w, a);
    }
  }

  // -------------------------------------------------------------- its causes

  /** A free that starts a return under a bound that is too small. */
  predicate StartsShortReturn(v: View, e: Step) {
    e.Free? && ReturnIsShort(PushStep(v, e.tid, e.ptr, e.size), Cached(e.tid, GetIndex(e.size)), e.size)
  }

  /** The list is cut, and more blocks are cut off than the counter and the size allow. */
  predicate ReturnIsShort(w: View, p: Place, size: nat) {
    var kept := KeepNum(w.Stored(p));
    && Splits(w, p)
    && |w.List(p)| - kept > if size == 0 then 1 else (w.Stored(p) - kept) * RoundUp(size)
  }

  lemma ShortIffDrops(v: View, t: nat, ptr: Addr, size: nat)
    requires Invariant(v) && Enabled(v, Free(t, ptr, size)) && 64 * (v.steps + 1) < WORD
    ensures StartsShortReturn(v, Free(t, ptr, size)) <==> Drops(FreeStep(v, t, ptr, size), Return(t))
  {
    FreedSize(size);
    if FreeStep(v, t, ptr, size).At(t).Returning? {
      BoundIsTooSmallIff(v, t, ptr, size);
      ReturnStarts(v, t, ptr, size);
    } else {
      NoReturnIsNotShort(v, t, ptr, size);
    }
  }

  /** A cut that leaves nothing to return is not short. */
  lemma NoReturnIsNotShort(v: View, t: nat, ptr: Addr, size: nat)
    requires v.At(t).Idle? && !FreeStep(v, t, ptr, size).At(t).Returning?
    ensures !StartsShortReturn(v, Free(t, ptr, size))
  {
    var w, p := PushStep(v, t, ptr, size), Cached(t, GetIndex(size));
    if Splits(w, p) {
      assert |w.List(p)| == KeepNum(w.Stored(p));
      if size > 0 { BoundIsPositive(w.Stored(p), RoundUp(size)); }
    }
  }

  /** A thread on its way to the central cache keeps its chain and its bound. */
  lemma ReturningStays(v: View, e: Step, t: nat)
    requires Enabled(v, e) && v.At(t).Returning? && e != Return(t)
    ensures Apply(v, e).At(t) == v.At(t) && Apply(v, e).List(InFlight(t)) == v.List(InFlight(t))
  {
    if e.Free? {
      PoolTransfers.FreeStaysAway(v, e.tid, e.ptr, e.size, t);
    } else if e.Fetch? {
      PoolTransfers.FetchTouchesOneClass(v, e.tid, e.span, InFlight(t));
    }
  }

  /** Only a free sets out on a return. */
  lemma ReturningStarts(v: View, e: Step, t: nat)
    requires Enabled(v, e) && Apply(v, e).At(t).Returning? && (!v.At(t).Returning? || e == Return(t))
    ensures e.Free? && e.tid == t && v.At(t).Idle?
  {
  }

  /** The return at step j is the one that the free at step i started. */
  ghost predicate ReturnOf(events: seq<Step>, i: nat, j: nat)
    requires i < j < |events|
  {
    events[i].Free? && events[j] == Return(events[i].tid) && forall m :: i < m < j ==> events[m] != events[j]
  }

  /** What the return at step j finds is what the free at step i left. */
  lemma {:induction false} ChainTravels(states: seq<View>, events: seq<Step>, i: nat, j: nat, t: nat)
    requires Run(states, events) && i <= j < |states| && states[i].At(t).Returning?
    requires forall m :: i <= m < j ==> events[m] != Return(t)
    ensures states[j].At(t) == states[i].At(t) && states[j].List(InFlight(t)) == states[i].List(InFlight(t))
  {
    if i < j {
      ChainTravels(states, events, i, j - 1, t);
      assert StepAt(states, events, j - 1);
      ReturningStays(states[j - 1], events[j - 1], t);
    }
  }

  lemma {:induction false} ReturnHasFree(states: seq<View>, events: seq<Step>, j: nat, t: nat) returns (i: nat)
    requires Run(states, events) && j < |states| && states[j].At(t).Returning?
    ensures i < j && events[i].Free? && events[i].tid == t && states[i + 1].At(t).Returning?
    ensures forall m :: i < m < j ==> events[m] != Return(t)
  {
    assert j > 0;
    assert StepAt(states, events, j - 1);
    i := j - 1;
    if states[i].At(t).Returning? && events[i] != Return(t) {
      i := ReturnHasFree(states, events, j - 1, t);
    } else {
      ReturningStarts(states[i], events[i], t);
    }
  }

  /** In every run, blocks are lost if and only if some free started a return under a
      bound that is too small, and that return took place. */
  lemma RunLosesIffShort(states: seq<View>, events: seq<Step>, k: nat)
    requires Run(states, events) && k < |states| && 64 * |states| < WORD
    ensures AnyLost(states[k]) <==>
            exists i: nat, j: nat {:trigger ReturnOf(events, i, j)} ::
              i < j < k && ReturnOf(events, i, j) && StartsShortReturn(states[i], events[i])
  {
    RunLosesIff(states, events, k);
    if j :| 0 <= j < k && Drops(states[j], events[j]) {
      var i := DropHasFree(states, events, j);
    }
    forall i: nat, j: nat | i < j < k && ReturnOf(events, i, j) && StartsShortReturn(states[i], events[i])
      ensures Drops(states[j], events[j])
    {
      ShortReturnDrops(states, events, i, j);
    }
  }

  lemma DropHasFree(states: seq<View>, events: seq<Step>, j: nat) returns (i: nat)
    requires Run(states, events) && j < |events| && 64 * |states| < WORD && Drops(states[j], events[j])
    ensures i < j && ReturnOf(events, i, j) && StartsShortReturn(states[i], events[i])
  {
    var t := events[j].tid;
    i := ReturnHasFree(states, events, j, t);
    ChainTravels(states, events, i + 1, j, t);
    FreeInRun(states, events, i);
  }

  lemma ShortReturnDrops(states: seq<View>, events: seq<Step>, i: nat, j: nat)
    requires Run(states, events) && i < j < |events| && 64 * |states| < WORD
    requires ReturnOf(events, i, j) && StartsShortReturn(states[i], events[i])
    ensures Drops(states[j], events[j])
  {
    FreeInRun(states, events, i);
    ChainTravels(states, events, i + 1, j, events[i].tid);
  }

  lemma FreeInRun(states: seq<View>, events: seq<Step>, i: nat)
    requires Run(states, events) && i < |events| && 64 * |states| < WORD && events[i].Free?
    ensures StartsShortReturn(states[i], events[i]) <==> Drops(states[i + 1], Return(events[i].tid))
    ensures StartsShortReturn(states[i], events[i]) ==>
              events[i].size == 0 || states[i].Failures(Cached(events[i].tid, GetIndex(events[i].size))) > 0
  {
    RunIsSafe(states, events, i);
    assert StepAt(states, events, i);
    ShortHasCause(states[i], events[i].tid, events[i].ptr, events[i].size);
  }

  lemma ShortHasCause(v: View, t: nat, ptr: Addr, size: nat)
    requires Invariant(v) && Enabled(v, Free(t, ptr, size)) && 64 * (v.steps + 1) < WORD
    ensures StartsShortReturn(v, Free(t, ptr, size)) <==> Drops(FreeStep(v, t, ptr, size), Return(t))
    ensures StartsShortReturn(v, Free(t, ptr, size)) ==> size == 0 || v.Failures(Cached(t, GetIndex(size))) > 0
  {
    ShortIffDrops(v, t, ptr, size);
    if StartsShortReturn(v, Free(t, ptr, size)) { BoundIsTooSmallIff(v, t, ptr, size); }
  }

  /** As long as no block is freed with size 0 and no fetch fails, nothing is lost. */
  lemma NothingIsLost(states: seq<View>, events: seq<Step>, k: nat)
    requires Run(states, events) && k < |states| && 64 * |states| < WORD
    requires forall j :: 0 <= j < k ==> !events[j].FetchFails? && (events[j].Free? ==> events[j].size >= 1)
    ensures !AnyLost(states[k])
  {
    RunLosesIffShort(states, events, k);
    forall i: nat | i < k && events[i].Free? ensures !StartsShortReturn(states[i], events[i]) {
      FreeInRun(states, events, i);
      RunWithoutFailures(states, events, i, Cached(events[i].tid, GetIndex(events[i].size)));
    }
  }
}
