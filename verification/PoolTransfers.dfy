/**
 How many blocks each step of the memory pool moves, in which order, and what it does to
 the stored counter, in terms of lists, counters and sizes alone.
 */
module PoolTransfers {
  import opened Sequences
  import opened FreeLists
  import opened SizeClasses
  import opened PoolOwnership
  import opened PoolSafety

  /** `allocate` takes the head off the thread's list, or leaves an empty list to fetch;
      the counter goes down by one in any case, below zero if it was there. */
  lemma AllocTakesHead(v: View, t: nat, size: nat)
    requires Invariant(v) && Enabled(v, Alloc(t, size))
    ensures var p, w := Cached(t, GetIndex(if size == 0 then 8 else size)), AllocStep(v, t, size);
            && w.Stored(p) == (if v.Stored(p) == 0 then WORD - 1 else v.Stored(p) - 1)
            && (v.List(p) == [] ==> w.At(t) == Fetching(p.index) && w.lists == v.lists && w.owner == v.owner)
            && (v.List(p) != [] ==> w.At(t).Idle? && v.List(p) == [v.List(p)[0]] + w.List(p))
            && (forall q :: q != p ==> w.List(q) == v.List(q) && w.Stored(q) == v.Stored(q))
  {
    AllocCountsDown(v, t, size);
    var p := Cached(t, GetIndex(Requested(size)));
    assert v.List(p) != [] ==> v.List(p) == [v.List(p)[0]] + v.List(p)[1..];
  }

  lemma AllocCountsDown(v: View, t: nat, size: nat)
    ensures var p, w := Cached(t, GetIndex(Requested(size))), AllocStep(v, t, size);
            && w.Stored(p) == (if v.Stored(p) == 0 then WORD - 1 else v.Stored(p) - 1)
            && (forall q :: q != p ==> w.Stored(q) == v.Stored(q))
  {
    AllocFields(v, t, size);
    LessOne(v.Count(Cached(t, GetIndex(Requested(size)))));
  }

  lemma LessOne(c: int)
    ensures (c - 1) % WORD == if c % WORD == 0 then WORD - 1 else c % WORD - 1
  {
  }

  /** A fetch delivers a full batch or empties the shared list. What it delivers comes off
      the front of the shared list; when that was empty, the blocks of a fresh span are
      delivered and shared in the order of their addresses. */
  lemma FetchDelivers(v: View, t: nat, span: Addr)
    requires Invariant(v) && Enabled(v, Fetch(t, span))
    ensures var i, w := v.At(t).index, FetchStep(v, t, span);
            var mine, shared := w.List(InFlight(t)), w.List(Shared(i));
            && w.At(t) == Fetched(i) && 1 <= |mine| <= BatchNum(i) && (|mine| == BatchNum(i) || shared == [])
            && (v.List(Shared(i)) != [] ==> mine + shared == v.List(Shared(i)))
            && (v.List(Shared(i)) == [] ==> IsCarved(mine + shared, span, i))
  {
    BatchIsFull(v, t, span);
    if v.List(Shared(v.At(t).index)) != [] {
      BatchFromShared(v, t, span);
    } else {
      BatchFromSpan(v, t, span);
    }
  }

  /** Nothing else moves in a fetch, and no counter changes. */
  lemma FetchTouchesOneClass(v: View, t: nat, span: Addr, q: Place)
    requires Enabled(v, Fetch(t, span))
    ensures q != InFlight(t) && q != Shared(v.At(t).index) ==> FetchStep(v, t, span).List(q) == v.List(q)
    ensures FetchStep(v, t, span).Stored(q) == v.Stored(q)
  {
  }

  lemma BatchIsFull(v: View, t: nat, span: Addr)
    requires v.At(t).Fetching?
    ensures var i, w := v.At(t).index, FetchStep(v, t, span);
            && w.At(t) == Fetched(i) && 1 <= |w.List(InFlight(t))| <= BatchNum(i)
            && (|w.List(InFlight(t))| == BatchNum(i) || w.List(Shared(i)) == [])
  {
    BatchNumRange(v.At(t).index);
  }

  lemma BatchFromShared(v: View, t: nat, span: Addr)
    requires v.At(t).Fetching? && v.List(Shared(v.At(t).index)) != []
    ensures var i, w := v.At(t).index, FetchStep(v, t, span); w.List(InFlight(t)) + w.List(Shared(i)) == v.List(Shared(i))
  {
  }

  lemma BatchFromSpan(v: View, t: nat, span: Addr)
    requires v.At(t).Fetching? && v.List(Shared(v.At(t).index)) == []
    ensures var i, w := v.At(t).index, FetchStep(v, t, span); IsCarved(w.List(InFlight(t)) + w.List(Shared(i)), span, i)
  {
    var i := v.At(t).index;
    BlocksSplit(span, Bytes(i), CarvedForThread(i), CarvedBlocks(i));
    CarvedIs(span, i);
  }

  /** All blocks of class i that fit a span, from its start: as many as fit in 32 KB, or
      the one that is larger than that. */
  predicate IsCarved(s: seq<Addr>, span: Addr, i: nat) {
    && |s| == (if Bytes(i) <= 32768 then 32768 / Bytes(i) else 1)
    && forall k :: 0 <= k < |s| ==> s[k] == span + k * Bytes(i)
  }

  lemma CarvedIs(span: Addr, i: nat)
    ensures IsCarved(Blocks(span, Bytes(i), 0, CarvedBlocks(i)), span, i)
  {
    if Bytes(i) <= 32768 { AtLeastOne(Bytes(i)); } else { LessThanOne(Bytes(i)); }
  }

  lemma AtLeastOne(z: nat)
    requires 1 <= z <= 32768
    ensures 32768 / z >= 1
  {
  }

  lemma LessThanOne(z: nat)
    requires z > 32768
    ensures 32768 / z == 0
  {
  }

  /** The end of a fetch hands out the first block of the chain, keeps the others in order,
      and adds a whole batch to the counter, however many blocks came. */
  lemma FinishKeepsOthers(v: View, t: nat)
    requires Invariant(v) && Enabled(v, Finish(t))
    ensures var i, w := v.At(t).index, FinishStep(v, t);
            && v.List(InFlight(t)) != [] && v.List(InFlight(t)) == [v.List(InFlight(t))[0]] + w.List(Cached(t, i))
            && w.List(InFlight(t)) == [] && w.At(t).Idle?
            && w.Stored(Cached(t, i)) == (v.Stored(Cached(t, i)) + BatchNum(i)) % WORD
            && (forall q :: q != InFlight(t) && q != Cached(t, i) ==> w.List(q) == v.List(q) && w.Stored(q) == v.Stored(q))
  {
    assert PhaseOk(v, t);
    PlusMod(v.Count(Cached(t, v.At(t).index)), BatchNum(v.At(t).index));
  }

  lemma PlusMod(c: int, d: nat)
    ensures (c + d) % WORD == (c % WORD + d) % WORD
  {
  }

  /** A failed fetch gives up: no block moves, and the counter stays one too low. */
  lemma FailMovesNothing(v: View, t: nat)
    requires Invariant(v) && Enabled(v, FetchFails(t))
    ensures var w := FailStep(v, t);
            w.At(t).Idle? && w.owner == v.owner && forall q :: w.List(q) == v.List(q) && w.Stored(q) == v.Stored(q)
  {
  }

  /** `deallocate` puts the block in front. A counter over 64 then makes the thread keep a
      quarter of it, if the list is that long, and set out with the rest in order; the
      counter is cut to what is kept. */
  lemma FreeKeepsQuarter(v: View, t: nat, ptr: Addr, size: nat)
    requires Invariant(v) && Enabled(v, Free(t, ptr, size)) && 64 * (v.steps + 1) < WORD
    ensures var p, w := Cached(t, GetIndex(size)), FreeStep(v, t, ptr, size);
            var list, c := [ptr] + v.List(p), (v.Stored(p) + 1) % WORD;
            var cut := c > 64 && |list| >= c / 4;
            && (w.At(t).Returning? <==> c > 64 && |list| > c / 4) && (w.At(t).Returning? || w.At(t).Idle?)
            && w.List(p) + w.List(InFlight(t)) == list
            && |w.List(p)| == (if cut then c / 4 else |list|) && w.Stored(p) == (if cut then c / 4 else c)
            && (forall q :: q != p && q != InFlight(t) ==> w.List(q) == v.List(q) && w.Stored(q) == v.Stored(q))
  {
    var p, w := Cached(t, GetIndex(size)), PushStep(v, t, ptr, size);
    assert PhaseOk(v, t);
    PlusMod(v.Count(p), 1);
    if Splits(w, p) {
      CutKeepsQuarter(w, t, GetIndex(size), RoundUp(size));
    }
  }

  lemma CutKeepsQuarter(w: View, t: nat, i: nat, z: nat)
    requires Splits(w, Cached(t, i)) && w.At(t).Idle? && w.List(InFlight(t)) == []
    ensures var p, c, x := Cached(t, i), w.Stored(Cached(t, i)), SplitStep(w, t, i, z);
            && (x.At(t).Returning? <==> |w.List(p)| > c / 4) && (x.At(t).Returning? || x.At(t).Idle?)
            && x.List(p) + x.List(InFlight(t)) == w.List(p) && |x.List(p)| == c / 4 == x.Stored(p)
            && (forall q :: q != p && q != InFlight(t) ==> x.List(q) == w.List(q) && x.Stored(q) == w.Stored(q))
  {
    var p := Cached(t, i);
    var s, n := w.List(p), KeepNum(w.Stored(p));
    assert s[..n] + s[n..] == s;
    QuarterStaysSmall(w.Stored(p));
  }

  lemma QuarterStaysSmall(c: nat)
    requires 64 < c < WORD
    ensures 1 <= c / 4 && (c / 4) % WORD == c / 4
  {
  }

  /** A return puts the front of the chain in front of the shared list, in order: all of it
      within the bound, or one block; what is behind is in no list any more. */
  lemma ReturnPutsInFront(v: View, t: nat) returns (front: seq<Addr>, back: seq<Addr>)
    requires Invariant(v) && Enabled(v, Return(t))
    ensures var i, w := v.At(t).index, ReturnStep(v, t);
            && v.List(InFlight(t)) == front + back && w.List(Shared(i)) == front + v.List(Shared(i))
            && |front| >= 1 && (back == [] <==> |v.List(InFlight(t))| <= v.At(t).limit || |v.List(InFlight(t))| == 1)
            && (back != [] ==> |front| == if v.At(t).limit == 0 then 1 else v.At(t).limit)
            && w.List(InFlight(t)) == [] && w.At(t).Idle?
            && (forall q :: q != InFlight(t) && q != Shared(i) ==> w.List(q) == v.List(q))
            && (forall q :: w.Stored(q) == v.Stored(q))
  {
    assert PhaseOk(v, t);
    var s, n := v.List(InFlight(t)), Reach(v, t);
    front, back := s[..n], s[n..];
  }

  // ---------------------------------------------------------------------- runs

  /** A thread with a fetched chain keeps it until it finishes. */
  lemma FetchedStays(v: View, e: Step, t: nat)
    requires Enabled(v, e) && v.At(t).Fetched? && e != Finish(t)
    ensures Apply(v, e).At(t) == v.At(t) && Apply(v, e).List(InFlight(t)) == v.List(InFlight(t))
  {
    if e.Free? {
      FreeStaysAway(v, e.tid, e.ptr, e.size, t);
    } else if e.Fetch? {
      FetchTouchesOneClass(v, e.tid, e.span, InFlight(t));
      var x, y := FetchFields(v, e.tid, e.span);
    }
  }

  lemma FreeStaysAway(v: View, u: nat, ptr: Addr, size: nat, t: nat)
    requires u != t
    ensures var w := FreeStep(v, u, ptr, size); w.At(t) == v.At(t) && w.List(InFlight(t)) == v.List(InFlight(t))
  {
  }

  lemma {:induction false} FetchedTravels(states: seq<View>, events: seq<Step>, i: nat, j: nat, t: nat)
    requires Run(states, events) && i <= j < |states| && states[i].At(t).Fetched?
    requires forall m :: i <= m < j ==> events[m] != Finish(t)
    ensures states[j].At(t) == states[i].At(t) && states[j].List(InFlight(t)) == states[i].List(InFlight(t))
  {
    if i < j {
      FetchedTravels(states, events, i, j - 1, t);
      assert StepAt(states, events, j - 1);
      FetchedStays(states[j - 1], events[j - 1], t);
    }
  }

  /** Whatever the other threads do between the fetch of a thread and the end of its call,
      the call leaves the thread with a batch less the block handed out, unless the fetch
      emptied the shared list. */
  lemma MissFillsList(states: seq<View>, events: seq<Step>, j: nat, k: nat, t: nat)
    requires Run(states, events) && j < k < |events| && 64 * |states| < WORD
    requires events[j].Fetch? && events[j].tid == t && events[k] == Finish(t) && forall m :: j < m < k ==> events[m] != Finish(t)
    ensures states[j].At(t).Fetching?
    ensures var i := states[j].At(t).index;
            |states[k + 1].List(Cached(t, i))| + 1 == BatchNum(i) || states[j + 1].List(Shared(i)) == []
  {
    FetchInRun(states, events, j, t);
    FetchedTravels(states, events, j + 1, k, t);
    FinishInRun(states, events, k, t);
  }

  lemma FetchInRun(states: seq<View>, events: seq<Step>, j: nat, t: nat)
    requires Run(states, events) && j < |events| && 64 * |states| < WORD && events[j].Fetch? && events[j].tid == t
    ensures states[j].At(t).Fetching? && states[j + 1].At(t) == Fetched(states[j].At(t).index)
    ensures var i := states[j].At(t).index;
            |states[j + 1].List(InFlight(t))| == BatchNum(i) || states[j + 1].List(Shared(i)) == []
  {
    assert StepAt(states, events, j);
    BatchIsFull(states[j], t, events[j].span);
  }

  lemma FinishInRun(states: seq<View>, events: seq<Step>, k: nat, t: nat)
    requires Run(states, events) && k < |events| && 64 * |states| < WORD && events[k] == Finish(t)
    ensures states[k].At(t).Fetched?
    ensures |states[k + 1].List(Cached(t, states[k].At(t).index))| + 1 == |states[k].List(InFlight(t))|
  {
    RunIsSafe(states, events, k);
    assert StepAt(states, events, k);
    FinishKeepsOthers(states[k], t);
  }
}
