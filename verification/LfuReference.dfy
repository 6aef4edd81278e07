/**
 The cache as a plain LFU cache that ages: each key counts its accesses since it
 entered, the victim is the least used key, the one touched longest ago among equals, and
 when there are too many accesses per key every count is lowered by half the limit.
 */
module LfuReference {
  import opened Sequences
  import opened LfuCache

  /** `hits` is 1 for the insertion plus one per access since, as far as it was not lowered
      by aging; `stamp` is the time of the last of these. */
  datatype Item = Item(value: Value, hits: int, stamp: nat)

  /** `total` counts all accesses, less the hits of the victims. */
  datatype Ref = Ref(capacity: nat, limit: int, items: map<Key, Item>, clock: nat, total: int)

  /** Least used, and touched longest ago among the least used. */
  ghost predicate IsVictim(r: Ref, v: Key) {
    v in r.items && forall k :: k in r.items ==>
      r.items[v].hits < r.items[k].hits || (r.items[v].hits == r.items[k].hits && r.items[v].stamp <= r.items[k].stamp)
  }

  function Touch(r: Ref, k: Key, value: Value): Ref
    requires k in r.items
  {
    r.(items := r.items[k := Item(value, r.items[k].hits + 1, r.clock)], clock := r.clock + 1)
  }

  function Enter(r: Ref, k: Key, value: Value): Ref {
    r.(items := r.items[k := Item(value, 1, r.clock)], clock := r.clock + 1)
  }

  function Evict(r: Ref, victim: Key): Ref
    requires victim in r.items
  {
    r.(items := r.items - {victim}, total := r.total - r.items[victim].hits)
  }

  /** Half the limit is taken off, and 1 is the least. */
  function Lowered(limit: int, hits: int): int {
    if hits <= limit / 2 + 1 then 1 else hits - limit / 2
  }

  /** The keys are aged one after the other, each being touched by that. */
  function AgeKeys(r: Ref, order: seq<Key>): Ref {
    if order == [] then r else AgeOne(AgeKeys(r, order[..|order| - 1]), order[|order| - 1])
  }

  function AgeOne(r: Ref, k: Key): Ref {
    if k !in r.items then r
    else r.(items := r.items[k := Item(r.items[k].value, Lowered(r.limit, r.items[k].hits), r.clock)], clock := r.clock + 1)
  }

  /** One access more makes more than `limit` accesses per key. */
  predicate Crowded(r: Ref) {
    r.items.Keys != {} && r.total + 1 >= (r.limit + 1) * |r.items|
  }

  function Count(r: Ref, order: seq<Key>): Ref {
    var w := r.(total := r.total + 1);
    if Crowded(r) then AgeKeys(w, order) else w
  }

  /** What the LFU cache may do. */
  ghost predicate RefStep(r: Ref, e: Event, r': Ref) {
    match e
    case PutKey(k, v, order) =>
      if k in r.items then r' == Count(Touch(r, k, v), order)
      else if |r.items| < r.capacity then r' == Count(Enter(r, k, v), order)
      else exists victim :: IsVictim(r, victim) && r' == Count(Enter(Evict(r, victim), k, v), order)
    case GetKey(k, order) => r' == if k in r.items then Count(Touch(r, k, r.items[k].value), order) else r
    case Purge => r' == r.(items := map[])
  }

  /** The same entries with the same counts and the same total, and every list in the order
      of last touch. */
  ghost predicate Agrees(c: Cache, r: Ref) {
    && c.capacity == r.capacity && c.maxAverage == r.limit && c.total == r.total
    && Mirrors(c.freq, c.value, r) && Ordered(c.lists, r.items)
  }

  ghost predicate Mirrors(freq: map<Key, int>, value: map<Key, Value>, r: Ref) {
    && freq.Keys == value.Keys == r.items.Keys
    && (forall k {:trigger r.items[k]} :: k in r.items ==>
          freq[k] == r.items[k].hits && value[k] == r.items[k].value && r.items[k].stamp < r.clock)
  }

  ghost predicate Ordered(lists: map<int, seq<Key>>, items: map<Key, Item>) {
    forall f {:trigger ByStamp(ListIn(lists, f), items)} :: ByStamp(ListIn(lists, f), items)
  }

  ghost predicate ByStamp(s: seq<Key>, items: map<Key, Item>) {
    forall i, j :: 0 <= i < j < |s| && s[i] in items && s[j] in items ==> items[s[i]].stamp < items[s[j]].stamp
  }

  /** What the cache keeps as long as it does not age, whatever its limit. */
  ghost predicate Plain(c: Cache) {
    && Filed(c.freq, c.lists) && c.value.Keys == c.freq.Keys && |c.freq| <= c.capacity && c.minFreq >= 1
    && (c.freq.Keys != {} ==> Minimum(c.freq, c.minFreq)) && c.total >= Sum(c.freq)
  }

  /** The state in which an event counts its access, if it does. */
  function Counts(c: Cache, e: Event): (b: Cache) {
    match e
    case PutKey(k, v, _) => if k in c.freq then Bumped(c.(value := c.value[k := v]), k) else Stored(Room(c), k, v)
    case GetKey(k, _) => if k in c.freq then Bumped(c, k) else c
    case Purge => c
  }

  /** The step ages the cache. */
  predicate Ages(c: Cache, e: Event) {
    (e.PutKey? || (e.GetKey? && e.key in c.freq)) && Overflows(Counts(c, e))
  }

  /** Step i of a run ages the cache. */
  predicate AgesAt(states: seq<Cache>, events: seq<Event>, i: nat)
    requires i < |states| && i < |events|
  {
    Ages(states[i], events[i])
  }

  // --------------------------------------------------------------- list orders

  lemma {:induction false} WithoutByStamp(s: seq<Key>, k: Key, items: map<Key, Item>)
    requires NoDup(s) && ByStamp(s, items)
    ensures ByStamp(Without(s, k), items)
  {
    if s != [] {
      var t := s[1..];
      assert forall i :: 0 <= i < |t| ==> t[i] == s[i + 1];
      assert NoDup(t) && ByStamp(t, items);
      WithoutByStamp(t, k, items);
      WithoutIs(t, k);
      var u := Without(t, k);
      if s[0] != k {
        forall j | 0 <= j < |u| && s[0] in items && u[j] in items ensures items[s[0]].stamp < items[u[j]].stamp {
          assert u[j] in u && u[j] in t;
          var i :| 0 <= i < |t| && t[i] == u[j];
          assert s[i + 1] == u[j];
        }
      }
    }
  }

  /** Items of other keys changed, none of this list. */
  lemma ByStampFrame(s: seq<Key>, items: map<Key, Item>, items': map<Key, Item>)
    requires ByStamp(s, items) && forall x :: x in s ==> (x in items') == (x in items)
    requires forall x :: x in s && x in items ==> items'[x].stamp == items[x].stamp
    ensures ByStamp(s, items')
  {
  }

  /** The youngest key goes last. */
  lemma ByStampSnoc(s: seq<Key>, k: Key, items: map<Key, Item>)
    requires ByStamp(s, items) && k in items
    requires forall x :: x in s && x in items ==> items[x].stamp < items[k].stamp
    ensures ByStamp(s + [k], items)
  {
  }

  /** Moving key k to the end of another list, with the youngest stamp. */
  lemma MovedOrdered(freq: map<Key, int>, lists: map<int, seq<Key>>, k: Key, f: int, items: map<Key, Item>, items': map<Key, Item>)
    requires Ordered(lists, items) && Filed(freq, lists) && k in freq && k in items
    requires items'.Keys == items.Keys && forall x :: x in items && x != k ==> items'[x] == items[x] && items[x].stamp < items'[k].stamp
    ensures Ordered(Moved(lists, k, freq[k], f), items')
  {
    forall g ensures ByStamp(ListIn(Moved(lists, k, freq[k], f), g), items') {
      var s := ListIn(lists, g);
      assert NoDup(s) && ByStamp(s, items);
      var t := if g == freq[k] then Without(s, k) else s;
      WithoutIs(s, k);
      WithoutByStamp(s, k, items);
      assert k in s ==> g == freq[k];
      assert forall x :: x in t ==> x != k && x in s;
      ByStampFrame(t, items, items');
      ByStampSnoc(t, k, items');
      assert ListIn(Moved(lists, k, freq[k], f), g) == if g == f then t + [k] else t;
    }
  }

  /** The first key of list m leaves. */
  lemma DroppedOrdered(lists: map<int, seq<Key>>, m: int, items: map<Key, Item>)
    requires Ordered(lists, items) && ListIn(lists, m) != []
    ensures Ordered(lists[m := ListIn(lists, m)[1..]], items - {ListIn(lists, m)[0]})
  {
    var s := ListIn(lists, m);
    var lists', items' := lists[m := s[1..]], items - {s[0]};
    forall f ensures ByStamp(ListIn(lists', f), items') {
      assert ByStamp(ListIn(lists, f), items);
      assert forall i :: 0 <= i < |s[1..]| ==> s[1..][i] == s[i + 1];
    }
  }

  /** A new key enters list 1 with the youngest stamp. */
  lemma EnteredOrdered(freq: map<Key, int>, lists: map<int, seq<Key>>, k: Key, items: map<Key, Item>, item: Item)
    requires Ordered(lists, items) && Filed(freq, lists) && k !in freq
    requires forall x :: x in items ==> items[x].stamp < item.stamp
    ensures Ordered(lists[1 := ListIn(lists, 1) + [k]], items[k := item])
  {
    var lists', items' := lists[1 := ListIn(lists, 1) + [k]], items[k := item];
    forall f ensures ByStamp(ListIn(lists', f), items') {
      var s := ListIn(lists, f);
      assert ByStamp(s, items);
      assert k !in s;
      ByStampFrame(s, items, items[k := item]);
      ByStampSnoc(s, k, items[k := item]);
    }
  }

  // ------------------------------------------------------------------- counting

  lemma CrowdedIff(b: Cache, r: Ref)
    requires b.freq.Keys == r.items.Keys && b.total == r.total && b.maxAverage == r.limit && b.total + 1 >= 0
    ensures Overflows(b) <==> Crowded(r)
  {
    if b.freq.Keys != {} {
      assert |b.freq| == |b.freq.Keys| == |r.items|;
      QuotientAbove(b.total + 1, |b.freq|, b.maxAverage);
    }
  }

  lemma QuotientAbove(t: nat, n: nat, limit: int)
    requires n > 0
    ensures t / n > limit <==> t >= (limit + 1) * n
  {
    var q := t / n;
    assert t == q * n + t % n;
    assert (q + 1) * n == q * n + n;
    if q > limit { MulMono(limit + 1, q, n); } else { MulMono(q + 1, limit + 1, n); }
  }

  /** A round of the aging loop is one of the reference. */
  lemma AgeOneRefines(c: Cache, r: Ref, k: Key)
    requires Agrees(c, r) && Filed(c.freq, c.lists) && k in c.freq && c.maxAverage >= 0
    ensures var w := Relocated(c, k, AgedFreq(c, c.freq[k])); Agrees(w, AgeOne(r, k)) && Filed(w.freq, w.lists)
  {
    var f := AgedFreq(c, c.freq[k]);
    assert c.freq[k] >= 1 && f == Lowered(r.limit, r.items[k].hits);
    MovedFiled(c.freq, c.lists, k, f);
    AgeOneMirrors(c.freq, c.value, r, k);
    StampsBeforeClock(c.freq, c.value, r);
    MovedOrdered(c.freq, c.lists, k, f, r.items, AgeOne(r, k).items);
  }

  lemma AgeOneMirrors(freq: map<Key, int>, value: map<Key, Value>, r: Ref, k: Key)
    requires Mirrors(freq, value, r) && k in r.items
    ensures k in freq && Mirrors(freq[k := Lowered(r.limit, freq[k])], value, AgeOne(r, k))
  {
    assert r.items[k].hits == freq[k];
  }

  lemma {:induction false} AgeRefines(c: Cache, r: Ref, order: seq<Key>)
    requires Agrees(c, r) && Filed(c.freq, c.lists) && c.maxAverage >= 0
    ensures var w := Aged(c, order); Agrees(w, AgeKeys(r, order)) && Filed(w.freq, w.lists) && w.maxAverage == c.maxAverage
  {
    if order != [] {
      var before, k := order[..|order| - 1], order[|order| - 1];
      AgeRefines(c, r, before);
      var w := Aged(c, before);
      if k in w.freq { AgeOneRefines(w, AgeKeys(r, before), k); }
    }
  }

  lemma CountRefines(b: Cache, r: Ref, order: seq<Key>)
    requires Agrees(b, r) && Filed(b.freq, b.lists) && b.total + 1 >= 0 && (Overflows(b) ==> b.maxAverage >= 0)
    ensures Agrees(Counted(b, order), Count(r, order))
  {
    CountedIs(b, order);
    CrowdedIff(b, r);
    if Overflows(b) {
      AgeRefines(b.(total := b.total + 1), r.(total := r.total + 1), order);
    }
  }

  // -------------------------------------------------------------------- steps

  lemma TouchAgrees(c: Cache, r: Ref, k: Key, v: Value)
    requires Filed(c.freq, c.lists) && k in c.freq && k in c.value && c.value[k] == v
    requires k in r.items && c.capacity == r.capacity && c.maxAverage == r.limit && c.total == r.total && Ordered(c.lists, r.items)
    requires Mirrors(c.freq, c.value[k := r.items[k].value], r)
    ensures Agrees(Bumped(c, k), Touch(r, k, v))
  {
    BumpedFields(c, k);
    TouchMirrors(c.freq, c.value, r, k, v);
    TouchOrdered(c.freq, c.lists, c.value, r, k, v);
  }

  lemma TouchOrdered(freq: map<Key, int>, lists: map<int, seq<Key>>, value: map<Key, Value>, r: Ref, k: Key, v: Value)
    requires Filed(freq, lists) && k in freq && k in r.items && Ordered(lists, r.items)
    requires Mirrors(freq, value[k := r.items[k].value], r)
    ensures Ordered(Moved(lists, k, freq[k], freq[k] + 1), Touch(r, k, v).items)
  {
    StampsBeforeClock(freq, value[k := r.items[k].value], r);
    MovedOrdered(freq, lists, k, freq[k] + 1, r.items, Touch(r, k, v).items);
  }

  lemma StampsBeforeClock(freq: map<Key, int>, value: map<Key, Value>, r: Ref)
    requires Mirrors(freq, value, r)
    ensures forall x :: x in r.items ==> r.items[x].stamp < r.clock
  {
  }

  lemma TouchMirrors(freq: map<Key, int>, value: map<Key, Value>, r: Ref, k: Key, v: Value)
    requires k in r.items && k in value && value[k] == v && k in freq && Mirrors(freq, value[k := r.items[k].value], r)
    ensures Mirrors(freq[k := freq[k] + 1], value, Touch(r, k, v))
  {
  }

  /** An access is an access of the reference, aging included. */
  lemma TouchRefines(c: Cache, r: Ref, k: Key, v: Value, order: seq<Key>)
    requires Filed(c.freq, c.lists) && c.value.Keys == c.freq.Keys && k in c.freq && c.value[k] == v && c.total >= 0
    requires Overflows(Bumped(c, k)) ==> c.maxAverage >= 0
    requires k in r.items && c.capacity == r.capacity && c.maxAverage == r.limit && c.total == r.total && Ordered(c.lists, r.items)
    requires Mirrors(c.freq, c.value[k := r.items[k].value], r)
    ensures Agrees(Touched(c, k, order), Count(Touch(r, k, v), order))
  {
    TouchAgrees(c, r, k, v);
    BumpedFiled(c, k);
    BumpedFields(c, k);
    CountRefines(Bumped(c, k), Touch(r, k, v), order);
  }

  /** The first key of the list of the cached minimum is the victim of the reference. */
  lemma VictimRefines(c: Cache, r: Ref)
    requires Plain(c) && Agrees(c, r) && c.freq.Keys != {}
    ensures c.List(c.minFreq) != [] && IsVictim(r, c.List(c.minFreq)[0])
  {
    var v := Victim(c);
    var s := ListIn(c.lists, c.minFreq);
    assert ByStamp(s, r.items);
    forall k | k in r.items
      ensures r.items[v].hits < r.items[k].hits || (r.items[v].hits == r.items[k].hits && r.items[v].stamp <= r.items[k].stamp)
    {
      assert c.minFreq <= c.freq[k];
      if c.freq[k] == c.minFreq {
        assert k in s;
        var i :| 0 <= i < |s| && s[i] == k;
        if i > 0 { assert r.items[s[0]].stamp < r.items[s[i]].stamp; }
      }
    }
  }

  /** Evicting drops the same key from both. */
  lemma EvictRefines(c: Cache, r: Ref)
    requires Plain(c) && Agrees(c, r) && c.freq.Keys != {}
    ensures c.List(c.minFreq) != [] && c.List(c.minFreq)[0] in r.items
    ensures Roomy(Evicted(c)) && Agrees(Evicted(c), Evict(r, c.List(c.minFreq)[0]))
  {
    var v := Victim(c);
    SumSplit(c.freq, v);
    EvictedIs(c, v);
    FewerKeys(c.freq, v);
    DroppedOrdered(c.lists, c.minFreq, r.items);
    EvictedLists(c);
    DroppedMirrors(c.freq, c.value, r, v);
  }

  lemma EvictedLists(c: Cache)
    requires Filed(c.freq, c.lists) && c.List(c.minFreq) != []
    ensures Evicted(c).lists == c.lists[c.minFreq := c.List(c.minFreq)[1..]]
  {
    assert c.List(c.minFreq)[0] in ListIn(c.lists, c.minFreq);
  }

  /** A cache with room for one more key. */
  ghost predicate Roomy(c: Cache) {
    && Filed(c.freq, c.lists) && c.value.Keys == c.freq.Keys && |c.freq| < c.capacity && c.minFreq >= 1
    && c.total >= Sum(c.freq)
  }

  lemma FewerKeys(freq: map<Key, int>, v: Key)
    requires v in freq
    ensures |freq - {v}| == |freq| - 1
  {
    assert (freq - {v}).Keys == freq.Keys - {v};
  }

  lemma DroppedMirrors(freq: map<Key, int>, value: map<Key, Value>, r: Ref, v: Key)
    requires Mirrors(freq, value, r) && v in freq
    ensures v in r.items && freq[v] == r.items[v].hits && Mirrors(freq - {v}, value - {v}, Evict(r, v))
  {
    assert r.items[v].hits == freq[v];
  }

  lemma EnterAgrees(c: Cache, r: Ref, k: Key, v: Value)
    requires Roomy(c) && Agrees(c, r) && k !in c.freq
    ensures Agrees(Stored(c, k, v), Enter(r, k, v))
  {
    EnteredOrdered(c.freq, c.lists, k, r.items, Item(v, 1, r.clock));
    EnteredMirrors(c.freq, c.value, r, k, v);
  }

  lemma EnteredMirrors(freq: map<Key, int>, value: map<Key, Value>, r: Ref, k: Key, v: Value)
    requires Mirrors(freq, value, r) && k !in freq
    ensures Mirrors(freq[k := 1], value[k := v], Enter(r, k, v))
  {
  }

  lemma NotNegative(c: Cache)
    requires Filed(c.freq, c.lists) && c.total >= Sum(c.freq)
    ensures c.total >= 0
  {
    assert forall k :: k in c.freq ==> c.freq[k] >= 0;
    SumAtLeast(c.freq, 0);
  }

  /** A new key in a cache with room for it. */
  lemma EnterRefines(c: Cache, r: Ref, k: Key, v: Value, order: seq<Key>)
    requires Roomy(c) && Agrees(c, r) && k !in c.freq && (Overflows(Stored(c, k, v)) ==> c.maxAverage >= 0)
    ensures Agrees(Counted(Stored(c, k, v), order), Count(Enter(r, k, v), order))
  {
    EnterAgrees(c, r, k, v);
    StoredFiled(c.freq, c.lists, k);
    NotNegative(c);
    CountRefines(Stored(c, k, v), Enter(r, k, v), order);
  }

  /** A new key, eviction and aging included. */
  lemma InsertRefines(c: Cache, r: Ref, k: Key, v: Value, order: seq<Key>) returns (r': Ref)
    requires Plain(c) && Agrees(c, r) && c.capacity >= 1 && k !in c.freq
    requires Overflows(Stored(Room(c), k, v)) ==> c.maxAverage >= 0
    ensures Agrees(Inserted(c, k, v, order), r') && RefStep(r, PutKey(k, v, order), r')
  {
    assert |c.freq| == |c.freq.Keys| == |r.items|;
    if |c.freq| == c.capacity {
      VictimRefines(c, r);
      EvictRefines(c, r);
      var s := Evict(r, c.List(c.minFreq)[0]);
      EnterRefines(Room(c), s, k, v, order);
      r' := Count(Enter(s, k, v), order);
    } else {
      EnterRefines(c, r, k, v, order);
      r' := Count(Enter(r, k, v), order);
    }
  }

  /** Every step of the cache is one of the reference, as long as a step that ages the cache
      has a limit that is not negative. */
  lemma StepAgrees(c: Cache, r: Ref, e: Event) returns (r': Ref)
    requires Refines(c, r) && (Ages(c, e) ==> c.maxAverage >= 0)
    ensures Agrees(Apply(c, e), r') && RefStep(r, e, r')
  {
    NotNegative(c);
    match e
    case PutKey(k, v, order) =>
      if k in c.freq {
        OverwriteRefines(c, r, k, v, order);
        r' := Count(Touch(r, k, v), order);
      } else {
        r' := InsertRefines(c, r, k, v, order);
      }
    case GetKey(k, order) =>
      r' := r;
      if k in c.freq {
        assert c.value[k := r.items[k].value] == c.value;
        TouchRefines(c, r, k, c.value[k], order);
        r' := Count(Touch(r, k, r.items[k].value), order);
      }
    case Purge =>
      PurgeAgrees(c, r);
      r' := r.(items := map[]);
  }

  lemma OverwriteRefines(c: Cache, r: Ref, k: Key, v: Value, order: seq<Key>)
    requires Refines(c, r) && k in c.freq && c.total >= 0
    requires Overflows(Bumped(c.(value := c.value[k := v]), k)) ==> c.maxAverage >= 0
    ensures Agrees(Touched(c.(value := c.value[k := v]), k, order), Count(Touch(r, k, v), order))
  {
    assert r.items[k].value == c.value[k];
    OverwrittenValue(c.value, k, v);
    TouchRefines(c.(value := c.value[k := v]), r, k, v, order);
  }

  lemma OverwrittenValue(value: map<Key, Value>, k: Key, v: Value)
    requires k in value
    ensures value[k := v].Keys == value.Keys && value[k := v][k := value[k]] == value
  {
  }

  lemma PurgeAgrees(c: Cache, r: Ref)
    requires Agrees(c, r)
    ensures Agrees(Purged(c), r.(items := map[]))
  {
  }

  // ---------------------------------------------------------- without aging

  lemma TouchedPlain(c: Cache, k: Key, order: seq<Key>)
    requires Plain(c) && k in c.freq && !Overflows(Bumped(c, k))
    ensures Plain(Touched(c, k, order))
  {
    CountedIs(Bumped(c, k), order);
    BumpedFields(c, k);
    BumpedExact(c, k);
    BumpedSum(c, k);
    LeastIsPositive(Bumped(c, k));
  }

  lemma InsertedPlain(c: Cache, k: Key, v: Value, order: seq<Key>)
    requires Plain(c) && c.capacity >= 1 && k !in c.freq && !Overflows(Stored(Room(c), k, v))
    ensures Plain(Inserted(c, k, v, order))
  {
    assert |c.freq| == |c.freq.Keys|;
    if |c.freq| == c.capacity { EvictedRoomy(c); }
    StoredPlain(Room(c), k, v);
    InsertedFields(c, k, v, order);
  }

  lemma EvictedRoomy(c: Cache)
    requires Plain(c) && c.freq.Keys != {}
    ensures Roomy(Evicted(c)) && Evicted(c).freq.Keys <= c.freq.Keys && Evicted(c).capacity == c.capacity
  {
    var v := Victim(c);
    SumSplit(c.freq, v);
    EvictedIs(c, v);
    FewerKeys(c.freq, v);
  }

  lemma StoredPlain(c: Cache, k: Key, v: Value)
    requires Roomy(c) && k !in c.freq
    ensures var s := Stored(c, k, v); Plain(s.(minFreq := 1, total := s.total + 1))
  {
    StoredFiled(c.freq, c.lists, k);
    StoredMinimum(c, k, c.freq[k := 1]);
    StoredSum(c.freq, c.freq[k := 1], k);
  }

  lemma InsertedFields(c: Cache, k: Key, v: Value, order: seq<Key>)
    requires !Overflows(Stored(Room(c), k, v)) && c.minFreq >= 1
    ensures var w, s := Inserted(c, k, v, order), Stored(Room(c), k, v);
            w == s.(minFreq := 1, total := s.total + 1)
  {
  }

  lemma StepPlain(c: Cache, e: Event)
    requires Plain(c) && c.capacity >= 1 && !Ages(c, e)
    ensures Plain(Apply(c, e))
  {
    match e
    case PutKey(k, v, order) =>
      if k in c.freq {
        OverwrittenPlain(c, k, v, order);
      } else {
        InsertedPlain(c, k, v, order);
      }
    case GetKey(k, order) => if k in c.freq { TouchedPlain(c, k, order); }
    case Purge => PurgedPlain(c);
  }

  lemma OverwrittenPlain(c: Cache, k: Key, v: Value, order: seq<Key>)
    requires Plain(c) && k in c.freq && !Overflows(Bumped(c.(value := c.value[k := v]), k))
    ensures Plain(Touched(c.(value := c.value[k := v]), k, order))
  {
    OverwrittenValue(c.value, k, v);
    TouchedPlain(c.(value := c.value[k := v]), k, order);
  }

  lemma PurgedPlain(c: Cache)
    requires Plain(c)
    ensures Plain(Purged(c))
  {
    NotNegative(c);
    assert Sum(map[]) == 0 && |Purged(c).freq| == 0;
  }

  // ---------------------------------------------------------------------- runs

  ghost predicate Refines(c: Cache, r: Ref) { Plain(c) && Agrees(c, r) && c.capacity >= 1 }

  /** A step that does not age the cache, under any limit, or any step under a limit
      between 2 and 250. */
  lemma StepRefines(c: Cache, r: Ref, e: Event) returns (r': Ref)
    requires Refines(c, r) && (Ages(c, e) ==> Invariant(c) && GoodLimit(c.maxAverage) && Enabled(c, e))
    ensures Refines(Apply(c, e), r') && RefStep(r, e, r')
  {
    r' := StepAgrees(c, r, e);
    if Ages(c, e) {
      StepKeepsInvariant(c, e);
      ExactIsPlain(Apply(c, e));
    } else {
      StepPlain(c, e);
    }
    StepKeepsSettings(c, e);
  }

  lemma ExactIsPlain(c: Cache)
    requires Invariant(c)
    ensures Plain(c)
  {
  }

  /** Step i of a run of the reference. */
  ghost predicate RefStepAt(refs: seq<Ref>, events: seq<Event>, i: nat)
    requires i < |events| && i + 1 < |refs|
  {
    RefStep(refs[i], events[i], refs[i + 1])
  }

  /** A run of the reference through the first events. */
  ghost predicate RefRun(refs: seq<Ref>, events: seq<Event>, capacity: nat, limit: int) {
    && 1 <= |refs| <= |events| + 1
    && refs[0] == Ref(capacity, limit, map[], 0, 0)
    && forall i {:trigger RefStepAt(refs, events, i)} :: 0 <= i < |refs| - 1 ==> RefStepAt(refs, events, i)
  }

  /** The reference states agree with the cache states. */
  ghost predicate Follows(states: seq<Cache>, refs: seq<Ref>) {
    |refs| <= |states| && forall i {:trigger FollowsAt(states, refs, i)} :: 0 <= i < |refs| ==> FollowsAt(states, refs, i)
  }

  ghost predicate FollowsAt(states: seq<Cache>, refs: seq<Ref>, i: nat)
    requires i < |refs| <= |states|
  {
    Refines(states[i], refs[i])
  }

  lemma RefRunNext(refs: seq<Ref>, events: seq<Event>, next: Ref, capacity: nat, limit: int)
    requires RefRun(refs, events, capacity, limit) && |refs| <= |events|
    requires RefStep(refs[|refs| - 1], events[|refs| - 1], next)
    ensures RefRun(refs + [next], events, capacity, limit)
  {
    var n, more := |refs|, refs + [next];
    forall i | 0 <= i < n ensures RefStepAt(more, events, i) {
      assert i < n - 1 ==> RefStepAt(refs, events, i);
    }
  }

  lemma FollowsNext(states: seq<Cache>, refs: seq<Ref>, next: Ref)
    requires Follows(states, refs) && |refs| < |states| && Refines(states[|refs|], next)
    ensures Follows(states, refs + [next])
  {
    var n, more := |refs|, refs + [next];
    forall i | 0 <= i < n + 1 ensures FollowsAt(states, more, i) {
      assert i < n ==> FollowsAt(states, refs, i);
    }
  }

  lemma RunStepRefines(states: seq<Cache>, events: seq<Event>, capacity: nat, limit: int, n: nat, r: Ref) returns (next: Ref)
    requires Run(states, events, capacity, limit) && capacity >= 1 && n < |events| && Refines(states[n], r)
    requires GoodLimit(limit) || !AgesAt(states, events, n)
    ensures Refines(states[n + 1], next) && RefStep(r, events[n], next)
  {
    assert StepAt(states, events, n);
    if GoodLimit(limit) { RunIsExact(states, events, capacity, limit, n); }
    next := StepRefines(states[n], r, events[n]);
  }

  /** Under a limit between 2 and 250 every run of the cache, aging included, is step by
      step a run of the reference: the same keys with the same values and counts, the same
      total, and the same victims. Under any other limit this holds up to the first aging
      pass. */
  lemma {:induction false} RunRefines(states: seq<Cache>, events: seq<Event>, capacity: nat, limit: int, n: nat) returns (refs: seq<Ref>)
    requires Run(states, events, capacity, limit) && capacity >= 1 && n < |states|
    requires GoodLimit(limit) || forall i :: 0 <= i < n ==> !AgesAt(states, events, i)
    ensures |refs| == n + 1 && RefRun(refs, events, capacity, limit) && Follows(states, refs)
  {
    if n == 0 {
      InitiallyAgree(capacity, limit);
      refs := [Ref(capacity, limit, map[], 0, 0)];
      assert FollowsAt(states, refs, 0);
    } else {
      refs := RunRefines(states, events, capacity, limit, n - 1);
      refs := FollowOne(states, events, capacity, limit, refs);
    }
  }

  lemma FollowOne(states: seq<Cache>, events: seq<Event>, capacity: nat, limit: int, refs: seq<Ref>) returns (longer: seq<Ref>)
    requires Run(states, events, capacity, limit) && capacity >= 1 && 1 <= |refs| <= |events|
    requires GoodLimit(limit) || !AgesAt(states, events, |refs| - 1)
    requires RefRun(refs, events, capacity, limit) && Follows(states, refs)
    ensures |longer| == |refs| + 1 && RefRun(longer, events, capacity, limit) && Follows(states, longer)
  {
    var n := |refs| - 1;
    assert FollowsAt(states, refs, n);
    var next := RunStepRefines(states, events, capacity, limit, n, refs[n]);
    RefRunNext(refs, events, next, capacity, limit);
    FollowsNext(states, refs, next);
    longer := refs + [next];
  }

  lemma InitiallyAgree(capacity: nat, limit: int)
    requires capacity >= 1
    ensures Refines(Empty(capacity, limit), Ref(capacity, limit, map[], 0, 0))
  {
    assert Sum(map[]) == 0;
  }

  function Agings(states: seq<Cache>, events: seq<Event>): (ages: seq<bool>)
    requires |states| == |events| + 1
    ensures |ages| == |events| && forall i :: 0 <= i < |ages| ==> ages[i] == AgesAt(states, events, i)
  {
    seq(|events|, i requires 0 <= i < |events| => AgesAt(states, events, i))
  }

  function FirstTrue(s: seq<bool>): (p: nat)
    ensures p <= |s| && (forall i :: 0 <= i < p ==> !s[i]) && (p < |s| ==> s[p])
  {
    if s == [] || s[0] then 0 else 1 + FirstTrue(s[1..])
  }

  /** The number of steps that the reference follows: all of them, or under a bad limit
      those before the first one that ages the cache. */
  function PlainSteps(states: seq<Cache>, events: seq<Event>, limit: int): (p: nat)
    requires |states| == |events| + 1
    ensures p <= |events| && (GoodLimit(limit) ==> p == |events|)
  {
    if GoodLimit(limit) then |events| else FirstTrue(Agings(states, events))
  }

  lemma PlainStepsDoNotAge(states: seq<Cache>, events: seq<Event>, limit: int)
    requires |states| == |events| + 1 && !GoodLimit(limit)
    ensures var p := PlainSteps(states, events, limit);
            (forall i :: 0 <= i < p ==> !AgesAt(states, events, i)) && (p < |events| ==> AgesAt(states, events, p))
  {
    var ages := Agings(states, events);
    forall i | 0 <= i < PlainSteps(states, events, limit) ensures !AgesAt(states, events, i) {
      assert !ages[i];
    }
  }
}
