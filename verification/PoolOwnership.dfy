/**
 The memory pool as a state machine over lists of blocks: who holds every block
 after each atomic step of each thread (src/memory/ThreadCache.cpp,
 src/memory/CentralCache.cpp).

 A call of `allocate` or `deallocate` is cut at the lock of the central cache:
 what a thread does on its own data is one step, each locked region is one step,
 and the chain a thread carries between the two is `InFlight`.
 */
module PoolOwnership {
  import opened Sequences
  import opened FreeLists
  import opened SizeClasses

  /** A list: `freeList_[index]` of a thread, `centralFreeList_[index]`, or the
      chain a thread carries into or out of the central cache. */
  datatype Place = Cached(tid: nat, index: nat) | Shared(index: nat) | InFlight(tid: nat)

  /** Who holds a block; a lost block is in no list and in nobody's hands. */
  datatype Owner = User | In(place: Place) | Lost

  /** Where a thread stands between two of its steps. */
  datatype Phase =
    | Idle
    | Fetching(index: nat)
    | Fetched(index: nat)
    | Returning(index: nat, limit: nat)

  datatype View = View(
    lists: map<Place, seq<Addr>>,
    owner: map<Addr, Owner>,      // every block ever carved, and who holds it
    class_: map<Addr, nat>,       // its size class
    count: map<Place, int>,       // thread counters before reduction modulo WORD
    failed: map<Place, nat>,      // fetches for a thread list that ended without a block
    phase: map<nat, Phase>,
    mapped: set<Addr>,            // word addresses obtained from the system
    steps: nat)
  {
    function List(p: Place): seq<Addr> { ListIn(lists, p) }

    function Count(p: Place): int { if p in count then count[p] else 0 }

    function Failures(p: Place): nat { if p in failed then failed[p] else 0 }

    /** The stored `freeListSize_` value. */
    function Stored(p: Place): nat { Count(p) % WORD }

    function At(t: nat): Phase { if t in phase then phase[t] else Idle }

    function ClassOf(p: Place): nat {
      match p
      case Cached(_, i) => i
      case Shared(i) => i
      case InFlight(t) => var ph := At(t); if ph.Idle? then 0 else ph.index
    }

    predicate UserHolds(a: Addr) { a in owner && owner[a] == User }
  }

  function ListIn(lists: map<Place, seq<Addr>>, p: Place): seq<Addr> {
    if p in lists then lists[p] else []
  }

  const INITIAL := View(map[], map[], map[], map[], map[], map[], {}, 0)

  // ---------------------------------------------------------------- invariant

  /** Every list has no repetition and holds exactly the blocks it owns. */
  ghost predicate Owned(lists: map<Place, seq<Addr>>, owner: map<Addr, Owner>) {
    && (forall p :: NoDup(ListIn(lists, p)))
    && (forall p, a {:trigger a in ListIn(lists, p)} :: a in ListIn(lists, p) ==> a in owner && owner[a] == In(p))
    && (forall a :: a in owner && owner[a].In? ==> a in ListIn(lists, owner[a].place))
  }

  /** Every carved block has a class, and a list holds blocks of its own class. */
  ghost predicate Classified(v: View) {
    && v.class_.Keys == v.owner.Keys
    && (forall a :: a in v.class_ ==> v.class_[a] < FREE_LIST_SIZE)
    && (forall p, a {:trigger a in v.List(p)} :: a in v.List(p) ==> a in v.class_ && v.class_[a] == v.ClassOf(p))
  }

  /** Blocks are aligned, mapped, and do not overlap. */
  ghost predicate Placed(class_: map<Addr, nat>, mapped: set<Addr>) {
    && (forall a :: a in class_ ==> a != NULL && a % ALIGNMENT == 0)
    && (forall a, w {:trigger InBlock(w, a, class_[a])} :: a in class_ && InBlock(w, a, class_[a]) ==> w in mapped)
    && (forall a, b {:trigger Apart(a, class_[a], b, class_[b])} ::
          a in class_ && b in class_ && a != b ==> Apart(a, class_[a], b, class_[b]))
    && (forall w :: w in mapped ==> w < ADDRESS_LIMIT)
  }

  /** `w` is the address of a word of the block. */
  predicate InBlock(w: Addr, a: Addr, i: nat) {
    a <= w < a + Bytes(i) && w % ALIGNMENT == 0
  }

  predicate Apart(a: Addr, i: nat, b: Addr, j: nat) {
    a + Bytes(i) <= b || b + Bytes(j) <= a
  }

  predicate Missed(v: View, t: nat, i: nat) {
    v.At(t) == Fetching(i) || v.At(t) == Fetched(i)
  }

  ghost predicate PhaseOk(v: View, t: nat) {
    match v.At(t)
    case Idle => v.List(InFlight(t)) == []
    case Fetching(i) => i < FREE_LIST_SIZE && v.List(Cached(t, i)) == [] && v.List(InFlight(t)) == []
    case Fetched(i) => i < FREE_LIST_SIZE && v.List(Cached(t, i)) == [] && 1 <= |v.List(InFlight(t))| <= BatchNum(i)
    case Returning(i, _) => i < FREE_LIST_SIZE && 1 <= |v.List(InFlight(t))|
  }

  /** A counter is below the length of its list by no more than the number of fetches
      that failed; a decrement that found the list empty is outstanding only while its
      thread is fetching. */
  ghost predicate CountOk(v: View, t: nat, i: nat) {
    var p := Cached(t, i);
    && v.Count(p) + v.Failures(p) >= (if Missed(v, t, i) then -1 else |v.List(p)|)
    && 0 <= v.Count(p) + v.steps && v.Count(p) <= 64 * v.steps
  }

  ghost predicate Invariant(v: View) {
    && Owned(v.lists, v.owner)
    && Classified(v)
    && Placed(v.class_, v.mapped)
    && (forall t: nat :: PhaseOk(v, t))
    && (forall t: nat, i: nat :: CountOk(v, t, i))
  }

  // -------------------------------------------------------------------- steps

  datatype Step =
    | Alloc(tid: nat, size: nat)
    | Fetch(tid: nat, span: Addr)
    | FetchFails(tid: nat)
    | Finish(tid: nat)
    | Free(tid: nat, ptr: Addr, size: nat)
    | Return(tid: nat)
    | Write(block: Addr, word: Addr)

  function Rehome(owner: map<Addr, Owner>, moved: seq<Addr>, o: Owner): map<Addr, Owner> {
    map a | a in owner :: if a in moved then o else owner[a]
  }

  function Requested(size: nat): nat { if size == 0 then ALIGNMENT else size }

  function AllocStep(v: View, t: nat, size: nat): View {
    var i := GetIndex(Requested(size));
    var p := Cached(t, i);
    var w := v.(count := v.count[p := v.Count(p) - 1], steps := v.steps + 1);
    if v.List(p) == [] then
      w.(phase := v.phase[t := Fetching(i)])
    else
      w.(lists := v.lists[p := v.List(p)[1..]], owner := Rehome(v.owner, v.List(p)[..1], User))
  }

  /** Blocks `from <= k < to` of a span cut into pieces of `z` bytes. */
  function Blocks(span: Addr, z: nat, from: nat, to: nat): (s: seq<Addr>)
    requires from <= to
    ensures |s| == to - from
    ensures forall k :: 0 <= k < |s| ==> s[k] == span + (from + k) * z
  {
    seq(to - from, k requires 0 <= k < to - from => span + (from + k) * z)
  }

  /** Number of freshly carved blocks that go to the thread that asked. */
  function CarvedForThread(index: nat): nat {
    Max(Min(BatchNum(index), TotalBlocks(index)), 1)
  }

  function SpanWords(span: Addr, index: nat): set<Addr> {
    set w | span <= w < span + SpanPages(index) * PAGE_SIZE && w % ALIGNMENT == 0
  }

  function FetchStep(v: View, t: nat, span: Addr): View
    requires v.At(t).Fetching?
  {
    var i := v.At(t).index;
    var c := v.List(Shared(i));
    var w := v.(phase := v.phase[t := Fetched(i)], steps := v.steps + 1);
    if c != [] then
      var n := Min(BatchNum(i), |c|);
      w.(lists := v.lists[Shared(i) := c[n..]][InFlight(t) := c[..n]],
         owner := Rehome(v.owner, c[..n], In(InFlight(t))))
    else
      var n := CarvedForThread(i);
      var mine := Blocks(span, Bytes(i), 0, n);
      var rest := Blocks(span, Bytes(i), n, CarvedBlocks(i));
      w.(lists := v.lists[Shared(i) := rest][InFlight(t) := mine],
         owner := v.owner + (map a | a in mine :: In(InFlight(t))) + (map a | a in rest :: In(Shared(i))),
         class_ := v.class_ + (map a | a in mine + rest :: i),
         mapped := v.mapped + SpanWords(span, i))
  }

  /** The shared list is empty and the page cache has no span: the call ends with a null
      pointer, and the counter stays decremented. */
  function FailStep(v: View, t: nat): View
    requires v.At(t).Fetching?
  {
    var p := Cached(t, v.At(t).index);
    v.(phase := v.phase[t := Idle], failed := v.failed[p := v.Failures(p) + 1], steps := v.steps + 1)
  }

  /** The first block of the chain goes to the user, the rest to the thread's list.
      A null chain would leave the decrement of the counter in place. */
  function FinishStep(v: View, t: nat): View
    requires v.At(t).Fetched?
  {
    var i := v.At(t).index;
    var p, q := InFlight(t), Cached(t, i);
    var s := v.List(p);
    var w := v.(phase := v.phase[t := Idle], steps := v.steps + 1);
    if s == [] then w
    else
      w.(lists := v.lists[p := []][q := s[1..]],
         owner := Rehome(Rehome(v.owner, s, In(q)), s[..1], User),
         count := v.count[q := v.Count(q) + BatchNum(i)])
  }

  const THRESHOLD: nat := 64

  function KeepNum(stored: nat): nat { Max(stored / 4, 1) }

  /** The bound on the length of the returned chain that is handed to the central
      cache: a number of bytes, reduced to a `size_t`. */
  function ReturnLimit(stored: nat, alignedSize: nat): nat {
    (if stored < KeepNum(stored) then 0 else stored - KeepNum(stored)) * alignedSize % WORD
  }

  /** The free list after the push, and the counter. */
  function PushStep(v: View, t: nat, ptr: Addr, size: nat): View {
    var p := Cached(t, GetIndex(size));
    v.(lists := v.lists[p := [ptr] + v.List(p)],
       owner := Rehome(v.owner, [ptr], In(p)),
       count := v.count[p := v.Count(p) + 1],
       steps := v.steps + 1)
  }

  predicate Splits(v: View, p: Place) {
    v.Stored(p) > THRESHOLD && |v.List(p)| >= KeepNum(v.Stored(p))
  }

  function FreeStep(v: View, t: nat, ptr: Addr, size: nat): View {
    var i := GetIndex(size);
    var p := Cached(t, i);
    var w := PushStep(v, t, ptr, size);
    if !Splits(w, p) then w else SplitStep(w, t, i, RoundUp(size))
  }

  /** Cut the list after the kept blocks; carry the rest towards the central cache. */
  function SplitStep(w: View, t: nat, i: nat, alignedSize: nat): View
    requires |w.List(Cached(t, i))| >= KeepNum(w.Stored(Cached(t, i)))
  {
    var p := Cached(t, i);
    var n := KeepNum(w.Stored(p));
    var s := w.List(p);
    var cut := w.(lists := w.lists[p := s[..n]], count := w.count[p := n]);
    if n == |s| then cut
    else
      cut.(lists := cut.lists[InFlight(t) := s[n..]],
           owner := Rehome(w.owner, s[n..], In(InFlight(t))),
           phase := w.phase[t := Returning(i, ReturnLimit(w.Stored(p), alignedSize))])
  }

  /** How far along the returned chain its end is looked for. */
  function Reach(v: View, t: nat): (n: nat)
    requires v.At(t).Returning?
  {
    Min(|v.List(InFlight(t))|, Max(v.At(t).limit, 1))
  }

  /** The part of the chain that was reached goes in front of the shared list; blocks
      behind it, if any, are dropped. */
  function ReturnStep(v: View, t: nat): View
    requires v.At(t).Returning?
  {
    var i := v.At(t).index;
    var s, n := v.List(InFlight(t)), Reach(v, t);
    v.(lists := v.lists[InFlight(t) := []][Shared(i) := s[..n] + v.List(Shared(i))],
       owner := Rehome(Rehome(v.owner, s[..n], In(Shared(i))), s[n..], Lost),
       phase := v.phase[t := Idle],
       steps := v.steps + 1)
  }

  /** What the environment may do: well-formed calls, a span from `mmap` that was
      not mapped before, and user writes inside blocks the user holds. */
  ghost predicate Enabled(v: View, e: Step) {
    match e
    case Alloc(t, size) => v.At(t).Idle? && size <= MAX_BYTES
    case Fetch(t, span) =>
      v.At(t).Fetching? && (v.List(Shared(v.At(t).index)) == [] ==> FreshSpan(v, span, v.At(t).index))
    case FetchFails(t) => v.At(t).Fetching? && v.List(Shared(v.At(t).index)) == []
    case Finish(t) => v.At(t).Fetched?
    case Free(t, ptr, size) =>
      v.At(t).Idle? && size <= MAX_BYTES && v.UserHolds(ptr) && ptr in v.class_ && v.class_[ptr] == GetIndex(size)
    case Return(t) => v.At(t).Returning?
    case Write(a, w) => v.UserHolds(a) && a in v.class_ && InBlock(w, a, v.class_[a])
  }

  ghost predicate FreshSpan(v: View, span: Addr, index: nat) {
    && span != NULL && span % PAGE_SIZE == 0
    && span + SpanPages(index) * PAGE_SIZE <= ADDRESS_LIMIT
    && SpanWords(span, index) !! v.mapped
  }

  ghost function Apply(v: View, e: Step): View
    requires Enabled(v, e)
  {
    match e
    case Alloc(t, size) => AllocStep(v, t, size)
    case Fetch(t, span) => FetchStep(v, t, span)
    case FetchFails(t) => FailStep(v, t)
    case Finish(t) => FinishStep(v, t)
    case Free(t, ptr, size) => FreeStep(v, t, ptr, size)
    case Return(t) => ReturnStep(v, t)
    case Write(_, _) => v
  }

  /** Step k of a run. */
  ghost predicate StepAt(states: seq<View>, events: seq<Step>, k: nat)
    requires k < |events| && |states| == |events| + 1
  {
    Enabled(states[k], events[k]) && states[k + 1] == Apply(states[k], events[k])
  }

  /** Any interleaving of enabled steps of any threads, from the empty pool. */
  ghost predicate Run(states: seq<View>, events: seq<Step>) {
    && |states| == |events| + 1
    && states[0] == INITIAL
    && forall k {:trigger StepAt(states, events, k)} :: 0 <= k < |events| ==> StepAt(states, events, k)
  }

  lemma ExtendedRun(states: seq<View>, events: seq<Step>, e: Step, w: View)
    requires Run(states, events) && Enabled(states[|events|], e) && w == Apply(states[|events|], e)
    ensures Run(states + [w], events + [e])
  {
    var ss, es := states + [w], events + [e];
    forall k | 0 <= k < |es| ensures StepAt(ss, es, k) {
      assert ss[k] == states[k] && ss[k + 1] == if k < |events| then states[k + 1] else w;
      assert es[k] == if k < |events| then events[k] else e;
      assert k < |events| ==> StepAt(states, events, k);
    }
  }
}
