/**
 Two runs of the memory pool that lose blocks, one for each cause: blocks freed with
 size 0, and fetches that failed. Both have the same shape: fetches by thread 1 fail,
 thread 2 allocates blocks of the smallest class, and thread 1 frees them.
 */
module PoolLeaks {
  import opened Sequences
  import opened FreeLists
  import opened SizeClasses
  import opened PoolOwnership
  import opened PoolSafety
  import opened PoolLoss

  const OWN: Place := Cached(1, 0)
  const OTHER: Place := Cached(2, 0)
  const SHARED: Place := Shared(0)

  /** A size of the smallest class: 0, or what its blocks hold. */
  predicate Small(z: nat) { z == 0 || z == 8 }

  lemma SmallestClass(z: nat)
    requires Small(z)
    ensures GetIndex(z) == 0 && GetIndex(Requested(z)) == 0 && RoundUp(z) == z && Bytes(0) == 8
    ensures BatchNum(0) == 64 && CarvedForThread(0) == 64 && CarvedBlocks(0) == 4096
  {
  }

  /** All calls are made with size z, and fetches fail only if `fails`. */
  predicate Admitted(e: Step, z: nat, fails: bool) {
    (e.Alloc? || e.Free? ==> e.size == z) && (e.FetchFails? ==> fails)
  }

  /** A run of that kind ends in state v. */
  ghost predicate Reaches(states: seq<View>, events: seq<Step>, z: nat, fails: bool, v: View) {
    && Run(states, events) && states[|events|] == v && |events| < 10000
    && forall j :: 0 <= j < |events| ==> Admitted(events[j], z, fails)
  }

  lemma ReachesNext(states: seq<View>, events: seq<Step>, z: nat, fails: bool, v: View, e: Step)
      returns (ss: seq<View>, es: seq<Step>)
    requires Reaches(states, events, z, fails, v) && Enabled(v, e) && Admitted(e, z, fails) && |events| < 9999
    ensures Reaches(ss, es, z, fails, Apply(v, e)) && |es| == |events| + 1
  {
    var w := Apply(v, e);
    ss, es := states + [w], events + [e];
    ExtendedRun(states, events, e, w);
  }

  lemma ReachedIsSafe(states: seq<View>, events: seq<Step>, z: nat, fails: bool, v: View)
    requires Reaches(states, events, z, fails, v)
    ensures Invariant(v) && v.steps < 10000
  {
    RunIsSafe(states, events, |events|);
  }

  // ------------------------------------------------------------ failed fetches

  /** No block exists yet, and n fetches of thread 1 failed. */
  ghost predicate Barren(v: View, n: nat) {
    && v.lists == map[] && v.mapped == {}
    && v.At(1).Idle? && v.At(2).Idle? && v.Count(OWN) + n == 0
  }

  lemma FailOnce(v: View, n: nat, z: nat)
    requires Barren(v, n) && Small(z)
    ensures Enabled(v, Alloc(1, z))
    ensures var w := AllocStep(v, 1, z); Enabled(w, FetchFails(1)) && Barren(FailStep(w, 1), n + 1)
  {
    SmallestClass(z);
    EmptyHanded(v, z);
  }

  lemma EmptyHanded(v: View, z: nat)
    requires v.lists == map[] && v.At(1).Idle? && Small(z)
    ensures var w := AllocStep(v, 1, z);
            w == v.(count := v.count[OWN := v.Count(OWN) - 1], phase := v.phase[1 := Fetching(0)], steps := v.steps + 1)
  {
    SmallestClass(z);
  }

  lemma {:induction false} FailingRun(n: nat, z: nat, fails: bool) returns (states: seq<View>, events: seq<Step>, v: View)
    requires Small(z) && (n > 0 ==> fails) && n <= 1000
    ensures Reaches(states, events, z, fails, v) && Barren(v, n) && |events| == 2 * n
  {
    if n == 0 {
      states, events, v := [INITIAL], [], INITIAL;
    } else {
      states, events, v := FailingRun(n - 1, z, fails);
      FailOnce(v, n - 1, z);
      states, events := ReachesNext(states, events, z, fails, v, Alloc(1, z));
      v := AllocStep(v, 1, z);
      states, events := ReachesNext(states, events, z, fails, v, FetchFails(1));
      v := FailStep(v, 1);
    }
  }

  // ---------------------------------------------------------------- allocating

  ghost predicate HeldBlock(v: View, a: Addr) { v.UserHolds(a) && a in v.class_ && v.class_[a] == 0 }

  /** What thread 2 leaves alone: thread 1 and the blocks of users. */
  ghost predicate Keeps(v: View, w: View) {
    && w.At(1) == v.At(1) && w.List(OWN) == v.List(OWN) && w.Count(OWN) == v.Count(OWN)
    && forall x :: HeldBlock(v, x) ==> HeldBlock(w, x)
  }

  /** The stock after n allocations: no span was carved yet, or 4096 blocks were. */
  ghost predicate Stock(v: View, own: seq<Addr>, n: nat) {
    if n == 0 then own == [] && v.List(SHARED) == [] && v.mapped == {}
    else |own| + |v.List(SHARED)| == 4096 - n
  }

  lemma HitGives(v: View, n: nat, z: nat) returns (b: Addr)
    requires Invariant(v) && v.At(2).Idle? && v.List(OTHER) != [] && Stock(v, v.List(OTHER), n) && Small(z)
    ensures Enabled(v, Alloc(2, z))
    ensures var w := AllocStep(v, 2, z);
            Keeps(v, w) && w.At(2).Idle? && Stock(w, w.List(OTHER), n + 1) && HeldBlock(w, b) && !HeldBlock(v, b)
  {
    SmallestClass(z);
    AllocHandsOutOneFreeBlock(v, 2, z);
    b := v.List(OTHER)[0];
  }

  lemma MissStarts(v: View, n: nat, z: nat)
    requires v.At(2).Idle? && v.List(OTHER) == [] && Stock(v, [], n) && Small(z)
    ensures Enabled(v, Alloc(2, z))
    ensures var w := AllocStep(v, 2, z);
            Keeps(v, w) && w.At(2) == Fetching(0) && w.List(OTHER) == [] && Stock(w, [], n)
  {
    SmallestClass(z);
    var w := AllocStep(v, 2, z);
    assert w == v.(count := v.count[OTHER := v.Count(OTHER) - 1], phase := v.phase[2 := Fetching(0)], steps := v.steps + 1);
  }

  lemma FetchBrings(v: View, n: nat)
    requires Invariant(v) && v.At(2) == Fetching(0) && v.List(OTHER) == [] && Stock(v, [], n) && n < 4096
    ensures Enabled(v, Fetch(2, 4096))
    ensures var w := FetchStep(v, 2, 4096);
            && Keeps(v, w) && w.At(2) == Fetched(0) && w.List(OTHER) == []
            && |w.List(InFlight(2))| + |w.List(SHARED)| == 4096 - n
  {
    SmallestClass(0);
    FetchKeepsHeld(v, 2, 4096);
  }

  lemma FetchKeepsHeld(v: View, t: nat, span: Addr)
    requires Invariant(v) && Enabled(v, Fetch(t, span))
    ensures forall x :: HeldBlock(v, x) ==> HeldBlock(FetchStep(v, t, span), x)
  {
    forall x | HeldBlock(v, x) ensures HeldBlock(FetchStep(v, t, span), x) {
      FetchKeepsUsers(v, t, span, x);
      FetchKeepsClass(v, t, span, x);
    }
  }

  lemma FetchKeepsUsers(v: View, t: nat, span: Addr, x: Addr)
    requires Invariant(v) && Enabled(v, Fetch(t, span))
    ensures FetchStep(v, t, span).UserHolds(x) <==> v.UserHolds(x)
  {
    var i := v.At(t).index;
    var c := v.List(Shared(i));
    if c == [] {
      var n := CarvedForThread(i);
      var mine, rest := Blocks(span, Bytes(i), 0, n), Blocks(span, Bytes(i), n, CarvedBlocks(i));
      BlocksSplit(span, Bytes(i), n, CarvedBlocks(i));
      CarvePlaced(v, span, i, mine + rest);
      assert x in mine || x in rest ==> x in mine + rest;
    } else {
      SplitDisjoint(c, Min(BatchNum(i), |c|));
    }
  }

  lemma FinishGives(v: View, n: nat) returns (b: Addr)
    requires Invariant(v) && v.At(2) == Fetched(0) && v.List(OTHER) == []
    requires |v.List(InFlight(2))| + |v.List(SHARED)| == 4096 - n
    ensures var w := FinishStep(v, 2);
            Keeps(v, w) && w.At(2).Idle? && Stock(w, w.List(OTHER), n + 1) && HeldBlock(w, b) && !HeldBlock(v, b)
  {
    FinishHandsOutOneFreeBlock(v, 2);
    b := v.List(InFlight(2))[0];
  }

  /** Users hold the blocks `held`, all of the smallest class. */
  ghost predicate Held(v: View, held: seq<Addr>) {
    NoDup(held) && forall x :: x in held ==> HeldBlock(v, x)
  }

  lemma HeldNext(v: View, w: View, held: seq<Addr>, b: Addr)
    requires Held(v, held) && Keeps(v, w) && HeldBlock(w, b) && !HeldBlock(v, b)
    ensures Held(w, held + [b])
  {
  }

  /** f fetches of thread 1 failed, and thread 2 allocated the blocks `held`. */
  ghost predicate Handing(v: View, f: nat, held: seq<Addr>) {
    && v.At(1).Idle? && v.List(OWN) == [] && v.Count(OWN) + f == 0
    && v.At(2).Idle? && Stock(v, v.List(OTHER), |held|) && Held(v, held)
  }

  lemma TakeOne(states: seq<View>, events: seq<Step>, z: nat, fails: bool, v: View, f: nat, held: seq<Addr>)
      returns (ss: seq<View>, es: seq<Step>, w: View, b: Addr)
    requires Reaches(states, events, z, fails, v) && Small(z) && |events| < 9000 && |held| < 4096
    requires Handing(v, f, held)
    ensures Reaches(ss, es, z, fails, w) && |es| <= |events| + 3 && Handing(w, f, held + [b])
  {
    ReachedIsSafe(states, events, z, fails, v);
    if v.List(OTHER) != [] {
      b := HitGives(v, |held|, z);
      ss, es := ReachesNext(states, events, z, fails, v, Alloc(2, z));
      w := AllocStep(v, 2, z);
      HeldNext(v, w, held, b);
    } else {
      ss, es, w, b := TakeFromSpan(states, events, z, fails, v, f, held);
    }
  }

  lemma TakeFromSpan(states: seq<View>, events: seq<Step>, z: nat, fails: bool, v: View, f: nat, held: seq<Addr>)
      returns (ss: seq<View>, es: seq<Step>, w: View, b: Addr)
    requires Reaches(states, events, z, fails, v) && Small(z) && |events| < 9000 && |held| < 4096
    requires Handing(v, f, held) && v.List(OTHER) == []
    ensures Reaches(ss, es, z, fails, w) && |es| <= |events| + 3 && Handing(w, f, held + [b])
  {
    var n := |held|;
    MissStarts(v, n, z);
    ss, es := ReachesNext(states, events, z, fails, v, Alloc(2, z));
    var x := AllocStep(v, 2, z);
    ReachedIsSafe(ss, es, z, fails, x);
    FetchBrings(x, n);
    ss, es := ReachesNext(ss, es, z, fails, x, Fetch(2, 4096));
    var y := FetchStep(x, 2, 4096);
    ReachedIsSafe(ss, es, z, fails, y);
    b := FinishGives(y, n);
    ss, es := ReachesNext(ss, es, z, fails, y, Finish(2));
    w := FinishStep(y, 2);
    HeldNext(y, w, held, b);
  }

  lemma {:induction false} HandingRun(f: nat, n: nat, z: nat, fails: bool)
      returns (states: seq<View>, events: seq<Step>, v: View, held: seq<Addr>)
    requires Small(z) && (f > 0 ==> fails) && f <= 1000 && n <= 1500
    ensures Reaches(states, events, z, fails, v) && |events| <= 2 * f + 3 * n && Handing(v, f, held) && |held| == n
  {
    if n == 0 {
      states, events, v := FailingRun(f, z, fails);
      held := [];
    } else {
      states, events, v, held := HandingRun(f, n - 1, z, fails);
      var b;
      states, events, v, b := TakeOne(states, events, z, fails, v, f, held);
      held := held + [b];
    }
  }

  // ------------------------------------------------------------------- freeing

  /** Thread 1 has m blocks, and f fewer in its counter; `held` are still with users. */
  ghost predicate Piling(v: View, f: nat, m: nat, held: seq<Addr>) {
    v.At(1).Idle? && |v.List(OWN)| == m && v.Count(OWN) == m - f && Held(v, held)
  }

  /** Up to a counter of 64, or one that wrapped, a freed block stays with the thread. */
  lemma PileOne(v: View, f: nat, m: nat, held: seq<Addr>, z: nat)
    requires Piling(v, f, m, held) && held != [] && m < f + 64 && f <= 1000 && Small(z)
    ensures Enabled(v, Free(1, held[0], z)) && Piling(FreeStep(v, 1, held[0], z), f, m + 1, held[1..])
  {
    SmallestClass(z);
    assert held[0] in held;
    var w := PushStep(v, 1, held[0], z);
    CounterBelowThreshold(v.Count(OWN) + 1, m + 1);
    assert FreeStep(v, 1, held[0], z) == w;
    HeldRest(v, held, z);
  }

  lemma CounterBelowThreshold(count: int, n: nat)
    requires -1000 <= count <= 64 && n <= 1064
    ensures count % WORD <= THRESHOLD || n < KeepNum(count % WORD)
  {
  }

  lemma HeldRest(v: View, held: seq<Addr>, z: nat)
    requires Held(v, held) && held != []
    ensures Held(PushStep(v, 1, held[0], z), held[1..])
  {
    var w := PushStep(v, 1, held[0], z);
    forall x | x in held[1..] ensures HeldBlock(w, x) {
      assert x in held && x != held[0];
    }
  }

  /** At 65 the thread keeps 16 blocks and hands on the others, under a bound of 49 sizes. */
  lemma PileOverflows(v: View, f: nat, held: seq<Addr>, z: nat)
    requires Piling(v, f, f + 64, held) && held != [] && Small(z)
    ensures Enabled(v, Free(1, held[0], z))
    ensures var w := FreeStep(v, 1, held[0], z); w.At(1) == Returning(0, 49 * z) && |w.List(InFlight(1))| == f + 49
  {
    SmallestClass(z);
    assert held[0] in held;
    var w := PushStep(v, 1, held[0], z);
    assert w.Stored(OWN) == 65 && |w.List(OWN)| == f + 65;
  }

  lemma {:induction false} PilingRun(f: nat, m: nat, z: nat, fails: bool)
      returns (states: seq<View>, events: seq<Step>, v: View, held: seq<Addr>)
    requires Small(z) && (f > 0 ==> fails) && f <= 1000 && m <= f + 64
    ensures Reaches(states, events, z, fails, v) && |events| <= 5 * f + 195 + m
    ensures Piling(v, f, m, held) && |held| == f + 65 - m
  {
    if m == 0 {
      states, events, v, held := HandingRun(f, f + 65, z, fails);
    } else {
      states, events, v, held := PilingRun(f, m - 1, z, fails);
      PileOne(v, f, m - 1, held, z);
      states, events := ReachesNext(states, events, z, fails, v, Free(1, held[0], z));
      v, held := FreeStep(v, 1, held[0], z), held[1..];
    }
  }

  lemma ReturnDrops(v: View, t: nat) returns (lost: seq<Addr>)
    requires Invariant(v) && v.At(t).Returning? && |v.List(InFlight(t))| > Max(v.At(t).limit, 1)
    ensures |lost| == |v.List(InFlight(t))| - Max(v.At(t).limit, 1)
    ensures NoDup(lost) && forall a :: a in lost ==> IsLost(Apply(v, Return(t)), a)
  {
    lost := Dropped(v, Return(t));
    SplitDisjoint(v.List(InFlight(t)), Max(v.At(t).limit, 1));
    forall a | a in lost ensures IsLost(Apply(v, Return(t)), a) {
      LostByStepIff(v, Return(t), a);
    }
  }

  // --------------------------------------------------------------------- losses

  /** f failed fetches, f + 65 allocations by another thread and as many frees: what is
      returned beyond 49 times the size is lost. */
  lemma LosingRun(f: nat, z: nat, fails: bool) returns (states: seq<View>, events: seq<Step>, v: View, lost: seq<Addr>)
    requires Small(z) && (f > 0 ==> fails) && f <= 1000 && f + 49 > Max(49 * z, 1)
    ensures Reaches(states, events, z, fails, v)
    ensures |lost| == f + 49 - Max(49 * z, 1) && NoDup(lost) && forall a :: a in lost ==> IsLost(v, a)
  {
    var held;
    states, events, v, held := PilingRun(f, f + 64, z, fails);
    PileOverflows(v, f, held, z);
    states, events := ReachesNext(states, events, z, fails, v, Free(1, held[0], z));
    v := FreeStep(v, 1, held[0], z);
    ReachedIsSafe(states, events, z, fails, v);
    lost := ReturnDrops(v, 1);
    states, events := ReachesNext(states, events, z, fails, v, Return(1));
    v := ReturnStep(v, 1);
  }

  /** No fetch fails, and the sizes of all calls are 0: 48 blocks are lost. */
  lemma ZeroSizesLoseBlocks() returns (states: seq<View>, events: seq<Step>, v: View, lost: seq<Addr>)
    ensures Run(states, events) && states[|events|] == v && |states| <= 10000
    ensures forall e :: e in events ==> !e.FetchFails? && (e.Alloc? || e.Free? ==> e.size == 0)
    ensures |lost| == 48 && NoDup(lost) && forall a :: a in lost ==> IsLost(v, a)
  {
    states, events, v, lost := LosingRun(0, 0, false);
  }

  /** No size is 0, and fetches fail: a block is lost. */
  lemma FailedFetchesLoseBlocks() returns (states: seq<View>, events: seq<Step>, v: View, lost: Addr)
    ensures Run(states, events) && states[|events|] == v && |states| <= 10000
    ensures forall e :: e in events && (e.Alloc? || e.Free?) ==> e.size == 8
    ensures IsLost(v, lost)
  {
    var s;
    states, events, v, s := LosingRun(344, 8, true);
    lost := s[0];
    assert lost in s;
  }
}
