/**
 The LFU cache object (include/util/RainLfu.h): nodes rewired in place, the node map,
 the frequency lists and the counters.
 */
module RainLfu {
  import opened Sequences
  import opened LfuCache
  import opened FreqLists
  import LfuReference

  class RainLfu {
    const capacity: nat
    const maxAverage: int
    var minFreq: int
    var total: int              // curTotalNum_
    var average: int            // curAverageNum_
    var value: map<Key, Value>  // value of each node of nodeMap_
    var freq: map<Key, int>     // freq of each node of nodeMap_
    var next: map<Ref, Ref>
    var pre: map<Ref, Ref>
    var freqLists: set<int>     // keys of freqToFreqList_
    ghost var lists: map<int, seq<Key>>

    ghost function Pointers(): Links
      reads this`next, this`pre
    {
      Links(next, pre)
    }

    /** What the object holds, as a value. */
    ghost function View(): Cache
      reads this
    {
      Cache(capacity, maxAverage, value, freq, lists, minFreq, total)
    }

    /** The pointers form the lists. */
    ghost predicate Valid()
      reads this`next, this`pre, this`freqLists, this`lists
    {
      freqLists == lists.Keys && Linked(Pointers(), lists)
    }

    /** Valid, and each node is on the list of its frequency. */
    ghost predicate InOrder()
      reads this`next, this`pre, this`freqLists, this`lists, this`freq, this`value
    {
      Valid() && Filed(freq, lists) && value.Keys == freq.Keys
    }

    constructor (capacity: nat, maxAverage: int)
      ensures InOrder() && View() == Empty(capacity, maxAverage)
    {
      this.capacity, this.maxAverage := capacity, maxAverage;
      minFreq, total, average := NONE, 0, 0;
      value, freq, next, pre, freqLists, lists := map[], map[], map[], map[], {}, map[];
    }

    // ------------------------------------------------------------ FreqList

    method AddNode(f: int, k: Key)
      requires Tail(f) in pre
      modifies this`next, this`pre
      ensures Pointers() == Appended(old(Pointers()), f, k)
    {
      pre := pre[Node(k) := pre[Tail(f)]];
      next := next[Node(k) := Tail(f)];
      next := next[pre[Tail(f)] := Node(k)];
      pre := pre[Tail(f) := Node(k)];
    }

    method RemoveNode(k: Key)
      modifies this`next, this`pre
      ensures Pointers() == Removed(old(Pointers()), k)
    {
      if Node(k) !in pre || Node(k) !in next {
        return;
      }
      var before := pre[Node(k)];
      next := next[before := next[Node(k)]];
      pre := pre[next[Node(k)] := before];
      next := next - {Node(k)};
    }

    method IsEmpty(f: int) returns (empty: bool)
      requires Valid() && f in lists
      ensures empty <==> View().List(f) == []
    {
      FirstNode(Pointers(), lists, f);
      empty := next[Head(f)] == Tail(f);
    }

    // ------------------------------------------------------- frequency lists

    method AddToFreqList(k: Key)
      requires Valid() && Apart(lists) && k in freq
      requires forall g {:trigger ListIn(lists, g)} :: k !in ListIn(lists, g)
      modifies this`next, this`pre, this`freqLists, this`lists
      ensures Valid() && View() == old(View()).(lists := old(lists)[freq[k] := ListIn(old(lists), freq[k]) + [k]])
    {
      var f := freq[k];
      if f !in freqLists {
        NewFreqList(f);
      }
      AppendLinked(Pointers(), lists, f, k);
      AddNode(f, k);
      lists := lists[f := lists[f] + [k]];
    }

    method NewFreqList(f: int)
      requires Valid() && Apart(lists) && f !in freqLists
      modifies this`next, this`pre, this`freqLists, this`lists
      ensures Valid() && Apart(lists) && lists == old(lists)[f := []]
      ensures forall g {:trigger ListIn(lists, g)} :: ListIn(lists, g) == ListIn(old(lists), g)
    {
      NewListLinked(Pointers(), lists, f);
      next, pre := next[Head(f) := Tail(f)], pre[Tail(f) := Head(f)];
      freqLists, lists := freqLists + {f}, lists[f := []];
    }

    method RemoveFromFreqList(k: Key)
      requires InOrder() && k in freq
      modifies this`next, this`pre, this`lists
      ensures Valid() && Apart(lists)
      ensures View() == old(View()).(lists := old(lists)[freq[k] := Without(ListIn(old(lists), freq[k]), k)])
      ensures forall g {:trigger ListIn(lists, g)} :: k !in ListIn(lists, g)
    {
      FiledIsApart(freq, lists);
      assert k in ListIn(lists, freq[k]);
      RemoveLinked(Pointers(), lists, freq[k], k);
      RemoveApart(lists, freq[k], k);
      RemoveNode(k);
      lists := lists[freq[k] := Without(ListIn(lists, freq[k]), k)];
    }

    /** Takes a node off its list, changes its frequency and files it again. */
    method Refile(k: Key, f: int)
      requires InOrder() && k in freq && f >= 1
      modifies this`next, this`pre, this`freqLists, this`lists, this`freq
      ensures InOrder() && View() == Relocated(old(View()), k, f)
    {
      ghost var from, cut := freq[k], lists[freq[k] := Without(ListIn(lists, freq[k]), k)];
      MovedFiled(freq, lists, k, f);
      assert Moved(lists, k, from, f) == cut[f := ListIn(cut, f) + [k]];
      RemoveFromFreqList(k);
      freq := freq[k := f];
      assert lists == cut;
      AddToFreqList(k);
    }

    // ---------------------------------------------------------------- counters

    method UpdateMinFreq()
      requires Valid()
      modifies this`minFreq
      ensures View() == WithMin(old(View()))
    {
      minFreq := NONE;
      var rest := freqLists;
      while exists f :: f in rest
        invariant rest <= freqLists && minFreq <= NONE
        invariant minFreq < NONE ==> minFreq in lists && lists[minFreq] != []
        invariant forall f :: f in lists && f !in rest && lists[f] != [] ==> minFreq <= f
        decreases |rest|
      {
        var f :| f in rest;
        var empty := IsEmpty(f);
        if !empty && f < minFreq {
          minFreq := f;
        }
        rest := rest - {f};
      }
      if minFreq == NONE {
        minFreq := 1;
      }
      WithMinIs(old(View()), minFreq);
    }

    /** One round of the aging loop. */
    method Age(k: Key)
      requires InOrder() && k in freq
      modifies this`next, this`pre, this`freqLists, this`lists, this`freq
      ensures InOrder() && View() == Relocated(old(View()), k, AgedFreq(old(View()), old(freq[k])))
      ensures maxAverage >= 0 ==>
                freq[k] == if old(freq[k]) <= maxAverage / 2 + 1 then 1 else old(freq[k]) - maxAverage / 2
    {
      var f := freq[k] - Half(maxAverage);
      if f < 1 {
        f := 1;
      }
      Refile(k, f);
    }

    method AgeAll(order: seq<Key>)
      requires InOrder() && forall k :: k in order ==> k in freq
      modifies this`next, this`pre, this`freqLists, this`lists, this`freq
      ensures InOrder() && View() == Aged(old(View()), order)
    {
      ghost var start := View();
      for i := 0 to |order|
        invariant InOrder() && freq.Keys == start.freq.Keys && View() == Aged(start, order[..i])
      {
        AgedRound(start, View(), order, i);
        Age(order[i]);
      }
      assert order[..|order|] == order;
    }

    /** `order` is the order in which the hash map is traversed. */
    method HandleOverMaxAverageNum(order: seq<Key>)
      requires InOrder() && forall k :: k in order ==> k in freq
      modifies this`next, this`pre, this`freqLists, this`lists, this`freq, this`minFreq
      ensures InOrder()
      ensures View() == if old(freq) == map[] then old(View()) else WithMin(Aged(old(View()), order))
    {
      if freq == map[] {
        return;
      }
      AgeAll(order);
      UpdateMinFreq();
    }

    method AddFreqNum(order: seq<Key>)
      requires InOrder() && Traversal(View(), order)
      modifies this`next, this`pre, this`freqLists, this`lists, this`freq, this`minFreq, this`total, this`average
      ensures InOrder() && View() == Counted(old(View()), order)
    {
      ghost var counted, over := Counted(View(), order), Overflows(View());
      CountedIs(View(), order);
      total := total + 1;
      average := if |freq| == 0 then 0 else Average(total, |freq|);
      assert |freq| != 0 ==> (average > maxAverage <==> over);
      if average > maxAverage {
        HandleOverMaxAverageNum(order);
      }
      assert View() == counted;
    }

    method DecreaseFreqNum(num: int)
      modifies this`total, this`average
      ensures total == old(total) - num
    {
      total := total - num;
      average := if |freq| == 0 then 0 else Average(total, |freq|);
    }

    // -------------------------------------------------------------- operations

    /** An access: the key moves one list up, and the cached minimum follows when the
        list it left was the last of that frequency. */
    method GetInternal(k: Key, order: seq<Key>) returns (v: Value)
      requires InOrder() && k in freq && Traversal(View(), order)
      modifies this
      ensures InOrder() && View() == Touched(old(View()), k, order) && v == old(value[k])
    {
      BumpedFields(View(), k);
      v := value[k];
      Bump(k);
      AddFreqNum(order);
    }

    method Bump(k: Key)
      requires InOrder() && k in freq
      modifies this`next, this`pre, this`freqLists, this`lists, this`freq, this`minFreq
      ensures InOrder() && View() == Bumped(old(View()), k)
    {
      var f := freq[k];
      ghost var moved := Relocated(View(), k, f + 1);
      BumpedAgain(View(), k);
      Refile(k, f + 1);
      assert View() == moved;
      var empty := IsEmpty(f);
      RaiseMinFreq(f, empty);
    }

    method RaiseMinFreq(f: int, empty: bool)
      requires InOrder()
      modifies this`minFreq
      ensures InOrder()
      ensures View() == old(View()).(minFreq := if f == old(minFreq) && empty then old(minFreq) + 1 else old(minFreq))
    {
      if f == minFreq && empty {
        minFreq := minFreq + 1;
      }
    }

    /** Drops the oldest node of the list of the cached minimum frequency. When that list is
        empty its first node is the tail sentinel, which `removeNode` leaves where it is
        because it has no next node; then only the total changes. */
    method KickOut()
      requires InOrder() && minFreq in lists
      modifies this
      ensures InOrder() && View() == Evicted(old(View()))
      ensures if old(lists[minFreq]) == [] then freq == old(freq) && total == old(total) - 1
              else freq == old(freq) - {old(lists[minFreq][0])} && total == old(total) - old(minFreq)
    {
      if lists[minFreq] != [] { EvictedIs(View(), lists[minFreq][0]); }
      FirstNode(Pointers(), lists, minFreq);
      var node := next[Head(minFreq)];
      if node.Node? {
        KickOutKey(node.key);
      } else {
        DecreaseFreqNum(1);
      }
    }

    method KickOutKey(k: Key)
      requires InOrder() && View().List(minFreq) != [] && k == View().List(minFreq)[0]
      modifies this
      ensures InOrder() && View() == Evicted(old(View()))
    {
      ghost var evicted := Evicted(View());
      EvictedIs(View(), k);
      var f := Erase(k);
      DecreaseFreqNum(f);
      assert View() == evicted;
    }

    /** Takes a node off its list and out of the node map. */
    method Erase(k: Key) returns (f: int)
      requires InOrder() && k in freq
      modifies this`next, this`pre, this`lists, this`value, this`freq
      ensures Valid() && value.Keys == freq.Keys && f == old(freq[k])
      ensures View() == old(View()).(lists := old(lists)[f := Without(ListIn(old(lists), f), k)],
                                     value := old(value) - {k}, freq := old(freq) - {k})
    {
      RemoveFromFreqList(k);
      f := freq[k];
      ghost var cut := View();
      value, freq := value - {k}, freq - {k};
      assert View() == cut.(value := cut.value - {k}, freq := cut.freq - {k});
    }

    method MakeRoom()
      requires InOrder() && (|freq| == capacity ==> minFreq in lists)
      modifies this
      ensures InOrder() && View() == Room(old(View()))
    {
      if |freq| == capacity {
        KickOut();
      }
    }

    method Store(k: Key, v: Value)
      requires InOrder() && k !in freq
      modifies this
      ensures InOrder() && View() == Stored(old(View()), k, v)
    {
      ghost var stored := Stored(View(), k, v);
      FiledIsApart(freq, lists);
      StoredFiled(freq, lists, k);
      NewNode(k, v);
      AddToFreqList(k);
      assert View() == stored;
    }

    method PutInternal(k: Key, v: Value, order: seq<Key>)
      requires InOrder() && k !in freq && Traversal(Stored(Room(View()), k, v), order)
      requires |freq| == capacity ==> minFreq in lists
      modifies this
      ensures InOrder() && View() == Inserted(old(View()), k, v, order)
    {
      ghost var stored := Stored(Room(View()), k, v);
      RoomFields(View());
      MakeRoom();
      Store(k, v);
      AddFreqNum(order);
      assert View() == Counted(stored, order);
      LowerMinFreq();
    }

    /** `minFreq_ = min(minFreq_, 1)`. */
    method LowerMinFreq()
      requires InOrder()
      modifies this`minFreq
      ensures InOrder() && View() == old(View()).(minFreq := if old(minFreq) < 1 then old(minFreq) else 1)
    {
      if 1 <= minFreq {
        minFreq := 1;
      }
    }

    /** A node of frequency 1, on no list yet. */
    method NewNode(k: Key, v: Value)
      requires Valid() && forall g {:trigger ListIn(lists, g)} :: k !in ListIn(lists, g)
      modifies this`next, this`pre, this`value, this`freq
      ensures Valid() && View() == old(View()).(value := old(value)[k := v], freq := old(freq)[k := 1])
    {
      NewNodeLinked(Pointers(), lists, k);
      next, pre := next - {Node(k)}, pre - {Node(k)};
      value, freq := value[k := v], freq[k := 1];
    }

    // ------------------------------------------------------------------ public

    method Put(k: Key, v: Value, order: seq<Key>)
      requires InOrder() && Tame(View()) && Enabled(View(), PutKey(k, v, order))
      modifies this
      ensures InOrder() && View() == LfuCache.Put(old(View()), k, v, order)
    {
      if capacity == 0 {
        return;
      }
      if k in freq {
        value := value[k := v];
        var _ := GetInternal(k, order);
      } else {
        HasEntries(freq, capacity);
        PutInternal(k, v, order);
      }
    }

    method Get(k: Key, order: seq<Key>) returns (found: bool, v: Value)
      requires InOrder() && Enabled(View(), GetKey(k, order))
      modifies this
      ensures InOrder() && View() == LfuCache.Get(old(View()), k, order)
      ensures found == (k in old(value)) && (found ==> v == old(value)[k])
    {
      found, v := k in freq, 0;
      if found {
        v := GetInternal(k, order);
      }
    }

    /** The lists are dropped with their nodes; the counters keep their values. */
    method PurgeAll()
      requires InOrder()
      modifies this
      ensures InOrder() && View() == Purged(old(View()))
    {
      value, freq := map[], map[];
      freqLists, lists := {}, map[];
    }
  }

  // ---------------------------------------------------------------------- runs

  datatype Operation = PutOp(key: Key, value: Value) | GetOp(key: Key) | PurgeOp

  datatype Answer = Nothing | Miss | Hit(value: Value)

  /** The step of the value layer that an operation takes, whatever the traversal order. */
  predicate Matches(op: Operation, e: Event) {
    match op
    case PutOp(k, v) => e.PutKey? && e.key == k && e.value == v
    case GetOp(k) => e.GetKey? && e.key == k
    case PurgeOp => e.Purge?
  }

  /** What a caller is told. */
  function AnswerTo(op: Operation, c: Cache): Answer {
    match op
    case GetOp(k) => if k in c.value then Hit(c.value[k]) else Miss
    case _ => Nothing
  }

  /** Some order in which a hash map with these keys may be traversed. */
  method SomeOrder(keys: set<Key>) returns (order: seq<Key>)
    ensures NoDup(order) && forall k :: k in order <==> k in keys
  {
    order := [];
    var rest := keys;
    while rest != {}
      invariant rest <= keys && NoDup(order)
      invariant forall k :: k in order <==> k in keys && k !in rest
      decreases |rest|
    {
      var k :| k in rest;
      order, rest := order + [k], rest - {k};
    }
  }

  /** What every run keeps, whatever its limit. */
  ghost predicate Healthy(cache: RainLfu)
    reads cache
  {
    cache.InOrder() && Tame(cache.View())
  }

  /** The next round of the aging loop. */
  lemma AgedRound(start: Cache, c: Cache, order: seq<Key>, i: nat)
    requires i < |order| && order[i] in c.freq && c == Aged(start, order[..i])
    ensures Aged(start, order[..i + 1]) == Relocated(c, order[i], AgedFreq(c, c.freq[order[i]]))
  {
    AgedStep(start, order, i);
    AgedKeepsSettings(start, order[..i]);
  }

  lemma BumpedAgain(c: Cache, k: Key)
    requires k in c.freq
    ensures var f, w := c.freq[k], Relocated(c, k, c.freq[k] + 1);
            && f in w.lists
            && Bumped(c, k) == w.(minFreq := if f == c.minFreq && w.List(f) == [] then c.minFreq + 1 else c.minFreq)
  {
  }

  lemma HasEntries(freq: map<Key, int>, capacity: nat)
    requires capacity > 0
    ensures |freq| == capacity ==> freq.Keys != {}
  {
    assert |freq| == |freq.Keys|;
  }

  /** What the traversal sees when a new key has entered. */
  method KeysAfterInsertion(cache: RainLfu, k: Key) returns (keys: set<Key>)
    requires Healthy(cache) && k !in cache.freq
    ensures forall v :: keys == Stored(Room(cache.View()), k, v).freq.Keys
  {
    keys := cache.freq.Keys;
    if |cache.freq| == cache.capacity {
      keys := KeysAfterEviction(cache);
    }
    ghost var room := Room(cache.View());
    assert keys == room.freq.Keys;
    keys := keys + {k};
    forall v ensures keys == Stored(room, k, v).freq.Keys {
      assert Stored(room, k, v).freq == room.freq[k := 1];
    }
  }

  method KeysAfterEviction(cache: RainLfu) returns (keys: set<Key>)
    requires cache.InOrder()
    ensures keys == Evicted(cache.View()).freq.Keys
  {
    keys := cache.freq.Keys;
    if cache.minFreq in cache.freqLists {
      FirstNode(cache.Pointers(), cache.lists, cache.minFreq);
      var node := cache.next[Head(cache.minFreq)];
      if node.Node? {
        EvictedIs(cache.View(), node.key);
        keys := keys - {node.key};
      }
    }
  }

  /** Every operation on a healthy cache goes through and is a step of the value layer. */
  method Perform(cache: RainLfu, op: Operation) returns (answer: Answer, ghost e: Event)
    requires Healthy(cache)
    modifies cache
    ensures Healthy(cache) && Matches(op, e) && answer == AnswerTo(op, old(cache.View()))
    ensures Enabled(old(cache.View()), e) && cache.View() == Apply(old(cache.View()), e)
    ensures op.PutOp? && cache.capacity > 0 ==> op.key in cache.value && cache.value[op.key] == op.value
  {
    answer := Nothing;
    match op
    case PutOp(k, v) => e := PerformPut(cache, k, v);
    case GetOp(k) => answer, e := PerformGet(cache, k);
    case PurgeOp =>
      e := Purge;
      StepIsTame(cache.View(), e);
      cache.PurgeAll();
  }

  method PerformGet(cache: RainLfu, k: Key) returns (answer: Answer, ghost e: Event)
    requires Healthy(cache)
    modifies cache
    ensures Healthy(cache) && e.GetKey? && e.key == k && answer == AnswerTo(GetOp(k), old(cache.View()))
    ensures Enabled(old(cache.View()), e) && cache.View() == Apply(old(cache.View()), e)
  {
    var order := SomeOrder(cache.freq.Keys);
    e := GetKey(k, order);
    StepIsTame(cache.View(), e);
    var found, v := cache.Get(k, order);
    answer := if found then Hit(v) else Miss;
  }

  method PerformPut(cache: RainLfu, k: Key, v: Value) returns (ghost e: Event)
    requires Healthy(cache)
    modifies cache
    ensures Healthy(cache) && e.PutKey? && e.key == k && e.value == v
    ensures cache.capacity > 0 ==> k in cache.value && cache.value[k] == v
    ensures Enabled(old(cache.View()), e) && cache.View() == Apply(old(cache.View()), e)
  {
    var keys := cache.freq.Keys;
    if k !in cache.freq {
      keys := KeysAfterInsertion(cache, k);
    }
    var order := SomeOrder(keys);
    e := PutKey(k, v, order);
    assert Enabled(cache.View(), e);
    StepIsTame(cache.View(), e);
    if cache.capacity > 0 {
      PutStores(cache.View(), k, v, order);
    }
    cache.Put(k, v, order);
  }

  /** Over every run of put, get and purge on the linked structure itself, with any
      capacity, limit and traversal orders: the run is one of the value layer, operation
      by operation, and ends in its last state; each get answers with what the state
      before it holds; no null pointer is followed and the lists stay linked. Under a
      limit between 2 and 250 the cached minimum of a non-empty cache is the true one,
      and the capacity is respected. */
  method RunSchedule(capacity: nat, maxAverage: int, schedule: seq<Operation>)
      returns (cache: RainLfu, answers: seq<Answer>, ghost states: seq<Cache>, ghost events: seq<Event>)
    ensures Run(states, events, capacity, maxAverage) && Records(schedule, answers, states, events)
    ensures fresh(cache) && cache.InOrder() && cache.View() == states[|schedule|]
    ensures capacity >= 1 && GoodLimit(maxAverage) ==>
              |cache.value| <= capacity && (cache.value != map[] ==> Minimum(cache.freq, cache.minFreq))
  {
    cache := new RainLfu(capacity, maxAverage);
    answers, states, events := [], [cache.View()], [];
    for i := 0 to |schedule|
      invariant fresh(cache) && Healthy(cache)
      invariant Recorded(schedule[..i], answers, states, events, capacity, maxAverage, cache.View())
    {
      ghost var e;
      var answer;
      answer, e := Perform(cache, schedule[i]);
      states, events := Record(schedule, i, answers, states, events, capacity, maxAverage, answer, e, cache.View());
      answers := answers + [answer];
    }
    assert schedule[..|schedule|] == schedule;
    if capacity >= 1 && GoodLimit(maxAverage) {
      RunIsExact(states, events, capacity, maxAverage, |schedule|);
      SameKeys(cache.value, cache.freq);
    }
  }

  /** The linked structure against the reference: under a limit between 2 and 250 the whole
      run, aging included, is step by step one of the reference, with the same answers;
      under any other limit it is up to its first aging pass. */
  method RunAgainstReference(capacity: nat, maxAverage: int, schedule: seq<Operation>)
      returns (cache: RainLfu, answers: seq<Answer>, ghost states: seq<Cache>, ghost events: seq<Event>, ghost refs: seq<LfuReference.Ref>)
    requires capacity >= 1
    ensures Run(states, events, capacity, maxAverage) && Records(schedule, answers, states, events)
    ensures fresh(cache) && cache.InOrder() && cache.View() == states[|schedule|]
    ensures var n := LfuReference.PlainSteps(states, events, maxAverage);
            && |refs| == n + 1 && LfuReference.RefRun(refs, events, capacity, maxAverage) && LfuReference.Follows(states, refs)
            && (GoodLimit(maxAverage) ==> n == |schedule|)
            && forall i :: 0 <= i < n ==> answers[i] == ReferenceAnswer(schedule[i], refs[i])
  {
    cache, answers, states, events := RunSchedule(capacity, maxAverage, schedule);
    ghost var n := LfuReference.PlainSteps(states, events, maxAverage);
    if !GoodLimit(maxAverage) {
      LfuReference.PlainStepsDoNotAge(states, events, maxAverage);
    }
    refs := LfuReference.RunRefines(states, events, capacity, maxAverage, n);
    forall i | 0 <= i < n ensures answers[i] == ReferenceAnswer(schedule[i], refs[i]) {
      assert LfuReference.FollowsAt(states, refs, i);
      SameAnswer(schedule[i], states[i], refs[i]);
    }
  }

  /** What the reference would tell the caller. */
  function ReferenceAnswer(op: Operation, r: LfuReference.Ref): Answer {
    match op
    case GetOp(k) => if k in r.items then Hit(r.items[k].value) else Miss
    case _ => Nothing
  }

  lemma SameAnswer(op: Operation, c: Cache, r: LfuReference.Ref)
    requires LfuReference.Agrees(c, r)
    ensures AnswerTo(op, c) == ReferenceAnswer(op, r)
  {
  }

  /** A run whose events and answers are those of the schedule, ending in state c. */
  ghost predicate Recorded(schedule: seq<Operation>, answers: seq<Answer>, states: seq<Cache>, events: seq<Event>,
                           capacity: nat, maxAverage: int, c: Cache) {
    && Run(states, events, capacity, maxAverage) && Records(schedule, answers, states, events)
    && states[|schedule|] == c
  }

  lemma Record(schedule: seq<Operation>, i: nat, answers: seq<Answer>, states: seq<Cache>, events: seq<Event>,
               capacity: nat, maxAverage: int, answer: Answer, e: Event, w: Cache) returns (ss: seq<Cache>, es: seq<Event>)
    requires i < |schedule| && |states| == i + 1
    requires Recorded(schedule[..i], answers, states, events, capacity, maxAverage, states[i])
    requires Enabled(states[i], e) && w == Apply(states[i], e)
    requires Matches(schedule[i], e) && answer == AnswerTo(schedule[i], states[i])
    ensures Recorded(schedule[..i + 1], answers + [answer], ss, es, capacity, maxAverage, w)
  {
    ss, es := states + [w], events + [e];
    ExtendedRun(states, events, capacity, maxAverage, e, w);
    assert schedule[..i + 1] == schedule[..i] + [schedule[i]];
    RecordsNext(schedule[..i], answers, states, events, schedule[i], answer, e, w);
  }

  lemma RecordsNext(done: seq<Operation>, answers: seq<Answer>, states: seq<Cache>, events: seq<Event>,
                    op: Operation, answer: Answer, e: Event, w: Cache)
    requires Records(done, answers, states, events) && Matches(op, e) && answer == AnswerTo(op, states[|done|])
    ensures Records(done + [op], answers + [answer], states + [w], events + [e])
  {
  }

  /** Events and answers are those of the schedule, operation by operation. */
  ghost predicate Records(schedule: seq<Operation>, answers: seq<Answer>, states: seq<Cache>, events: seq<Event>) {
    && |events| == |schedule| == |answers| && |states| == |schedule| + 1
    && forall i :: 0 <= i < |schedule| ==> Matches(schedule[i], events[i]) && answers[i] == AnswerTo(schedule[i], states[i])
  }

  lemma SameKeys(value: map<Key, Value>, freq: map<Key, int>)
    requires value.Keys == freq.Keys
    ensures |value| == |freq| && (value != map[] ==> freq.Keys != {})
  {
  }
}
