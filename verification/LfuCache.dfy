/**
 The LFU cache (include/util/RainLfu.h) over frequency lists: what `put`, `get` and
 `purge` do to the entries, the lists, the cached minimum frequency and the access
 total, aging included.
 */
module LfuCache {
  import opened Sequences

  type Key = nat
  type Value = int

  /** The "none" value of `updateMinFreq`, INT8_MAX. */
  const NONE: int := 127

  datatype Cache = Cache(
    capacity: nat,
    maxAverage: int,
    value: map<Key, Value>,
    freq: map<Key, int>,
    lists: map<int, seq<Key>>,   // per frequency, oldest arrival first
    minFreq: int,
    total: int)
  {
    function List(f: int): seq<Key> { ListIn(lists, f) }
  }

  function ListIn(lists: map<int, seq<Key>>, f: int): seq<Key> { if f in lists then lists[f] else [] }

  function Empty(capacity: nat, maxAverage: int): Cache {
    Cache(capacity, maxAverage, map[], map[], map[], NONE, 0)
  }

  /** C++ division by two, which rounds towards zero. */
  function Half(n: int): int { if n >= 0 then n / 2 else -((-n) / 2) }

  // --------------------------------------------------------------- operations

  /** Move a key from the list of its frequency to the end of another one. */
  function Relocated(c: Cache, k: Key, f: int): Cache
    requires k in c.freq
  {
    c.(lists := Moved(c.lists, k, c.freq[k], f), freq := c.freq[k := f])
  }

  function Moved(lists: map<int, seq<Key>>, k: Key, from: int, to: int): map<int, seq<Key>> {
    var cut := lists[from := Without(ListIn(lists, from), k)];
    cut[to := ListIn(cut, to) + [k]]
  }

  /** `getInternal` before the counters: the key moves one list up. */
  function Bumped(c: Cache, k: Key): Cache
    requires k in c.freq
  {
    var w := Relocated(c, k, c.freq[k] + 1);
    w.(minFreq := if c.freq[k] == c.minFreq && w.List(c.freq[k]) == [] then c.minFreq + 1 else c.minFreq)
  }

  /** `curTotalNum_ / nodeMap_.size()`: a negative total is converted to a `size_t`, and
      the quotient back to an `int`. */
  function Average(total: int, n: nat): int
    requires n > 0
  {
    if total >= 0 then total / n
    else
      var low := (total % 0x1_0000_0000_0000_0000) / n % 0x1_0000_0000;
      if low < 0x8000_0000 then low else low - 0x1_0000_0000
  }

  /** The average rounds down; a negative total first becomes 2^64 more, and the lowest 32
      bits of the quotient are the result. */
  lemma AverageIs(total: int, n: nat) returns (q: nat)
    requires n > 0 && -0x1_0000_0000_0000_0000 <= total
    ensures q * n <= total + (if total < 0 then 0x1_0000_0000_0000_0000 else 0) < q * n + n
    ensures if total >= 0 then Average(total, n) == q
            else -0x8000_0000 <= Average(total, n) < 0x8000_0000 && (q - Average(total, n)) % 0x1_0000_0000 == 0
  {
    var t := if total < 0 then total + 0x1_0000_0000_0000_0000 else total;
    q := t / n;
    assert t == q * n + t % n;
  }

  /** The average after one more access exceeds the limit. */
  predicate Overflows(c: Cache) {
    c.freq.Keys != {} && Average(c.total + 1, |c.freq|) > c.maxAverage
  }

  /** `addFreqNum`; `order` is the order in which the hash map is traversed. */
  ghost function Counted(c: Cache, order: seq<Key>): Cache {
    var w := c.(total := c.total + 1);
    if Overflows(c) then WithMin(Aged(w, order)) else w
  }

  function AgedFreq(c: Cache, f: int): int {
    var g := f - Half(c.maxAverage);
    if g < 1 then 1 else g
  }

  /** The aging loop over the keys of `order`. */
  function Aged(c: Cache, order: seq<Key>): Cache {
    if order == [] then c
    else
      var w := Aged(c, order[..|order| - 1]);
      var k := order[|order| - 1];
      if k in w.freq then Relocated(w, k, AgedFreq(c, w.freq[k])) else w
  }

  lemma AgedStep(c: Cache, order: seq<Key>, i: nat)
    requires i < |order|
    ensures var w, k := Aged(c, order[..i]), order[i];
            Aged(c, order[..i + 1]) == if k in w.freq then Relocated(w, k, AgedFreq(c, w.freq[k])) else w
  {
    assert order[..i + 1][..i] == order[..i];
  }

  /** What `updateMinFreq` computes: the least frequency below NONE whose list is not
      empty, or 1 when there is none. */
  ghost predicate IsMin(lists: map<int, seq<Key>>, m: int) {
    if exists f :: f in lists && lists[f] != [] && f < NONE
    then m in lists && lists[m] != [] && m < NONE && forall f :: f in lists && lists[f] != [] ==> m <= f
    else m == 1
  }

  lemma MinExists(lists: map<int, seq<Key>>)
    ensures exists m :: IsMin(lists, m)
  {
    if exists f :: f in lists && lists[f] != [] && f < NONE {
      var keys := set f | f in lists && lists[f] != [] && f < NONE;
      var f :| f in lists && lists[f] != [] && f < NONE;
      assert f in keys;
      var m := LeastOf(keys);
      assert m in keys;
      forall g | g in lists && lists[g] != [] ensures m <= g {
        assert g < NONE ==> g in keys;
      }
      assert IsMin(lists, m);
    } else {
      assert IsMin(lists, 1);
    }
  }

  lemma {:induction false} LeastOf(keys: set<int>) returns (m: int)
    requires exists f :: f in keys
    ensures m in keys && forall f :: f in keys ==> m <= f
    decreases |keys|
  {
    m :| m in keys;
    if f :| f in keys && f < m {
      var top, others := m, keys - {m};
      assert f in others;
      m := LeastOf(others);
      assert forall x :: x in keys ==> x == top || x in others;
    }
  }

  ghost function WithMin(c: Cache): Cache {
    MinExists(c.lists);
    var m :| IsMin(c.lists, m);
    c.(minFreq := m)
  }

  ghost function Touched(c: Cache, k: Key, order: seq<Key>): Cache
    requires k in c.freq
  {
    Counted(Bumped(c, k), order)
  }

  /** `kickOut`: drop the oldest key of the list of the cached minimum. In an empty list
      the first node is the tail sentinel, of frequency 1: it is not unlinked, and its
      key, which is never initialised, is taken to be none of the cache. */
  function Evicted(c: Cache): Cache {
    var s := c.List(c.minFreq);
    if s == [] then c.(total := c.total - 1)
    else if s[0] !in c.freq then c
    else
      c.(lists := c.lists[c.minFreq := s[1..]], value := c.value - {s[0]}, freq := c.freq - {s[0]},
         total := c.total - c.freq[s[0]])
  }

  lemma EvictedIs(c: Cache, v: Key)
    requires Filed(c.freq, c.lists) && c.List(c.minFreq) != [] && v == c.List(c.minFreq)[0]
    ensures v in c.freq && c.freq[v] == c.minFreq && c.minFreq in c.lists
    ensures Evicted(c) == c.(lists := c.lists[c.freq[v] := Without(ListIn(c.lists, c.freq[v]), v)],
                             value := c.value - {v}, freq := c.freq - {v}, total := c.total - c.freq[v])
    ensures Filed(Evicted(c).freq, Evicted(c).lists)
  {
    assert v in ListIn(c.lists, c.minFreq);
    EvictedFiled(c.freq, c.lists, c.minFreq);
  }

  function Room(c: Cache): Cache {
    if |c.freq| == c.capacity then Evicted(c) else c
  }

  lemma RoomFields(c: Cache)
    ensures Room(c).freq.Keys <= c.freq.Keys
    ensures Room(c).capacity == c.capacity && Room(c).maxAverage == c.maxAverage
  {
  }

  function Stored(c: Cache, k: Key, v: Value): Cache {
    c.(value := c.value[k := v], freq := c.freq[k := 1], lists := c.lists[1 := c.List(1) + [k]])
  }

  ghost function Inserted(c: Cache, k: Key, v: Value, order: seq<Key>): Cache {
    var w := Counted(Stored(Room(c), k, v), order);
    w.(minFreq := if w.minFreq < 1 then w.minFreq else 1)
  }

  ghost function Put(c: Cache, k: Key, v: Value, order: seq<Key>): Cache {
    if c.capacity == 0 then c
    else if k in c.freq then Touched(c.(value := c.value[k := v]), k, order)
    else Inserted(c, k, v, order)
  }

  ghost function Get(c: Cache, k: Key, order: seq<Key>): Cache {
    if k in c.freq then Touched(c, k, order) else c
  }

  function Purged(c: Cache): Cache {
    c.(value := map[], freq := map[], lists := map[])
  }

  // ---------------------------------------------------------------- structure

  /** Each key is once in the list of its frequency, and in no other. */
  ghost predicate Filed(freq: map<Key, int>, lists: map<int, seq<Key>>) {
    && (forall f {:trigger NoDup(ListIn(lists, f))} :: NoDup(ListIn(lists, f)))
    && (forall f, k {:trigger k in ListIn(lists, f)} :: k in ListIn(lists, f) ==> k in freq && freq[k] == f)
    && (forall k {:trigger freq[k]} :: k in freq ==> freq[k] >= 1 && k in ListIn(lists, freq[k]))
  }

  lemma MovedList(freq: map<Key, int>, lists: map<int, seq<Key>>, k: Key, f: int, g: int)
    requires Filed(freq, lists) && k in freq
    ensures var s := ListIn(Moved(lists, k, freq[k], f), g);
            && NoDup(s)
            && forall x {:trigger x in s} :: x in s <==> (x == k && g == f) || (x != k && x in ListIn(lists, g))
  {
    assert NoDup(ListIn(lists, g));
    WithoutIs(ListIn(lists, g), k);
    assert k in ListIn(lists, g) ==> g == freq[k];
    var s := if g == freq[k] then Without(ListIn(lists, g), k) else ListIn(lists, g);
    assert NoDup(s) && k !in s && forall x :: x in s <==> x in ListIn(lists, g) && x != k;
    var r := ListIn(Moved(lists, k, freq[k], f), g);
    if g == f {
      assert r == s + [k];
    } else {
      assert r == s;
    }
  }

  lemma MovedFiled(freq: map<Key, int>, lists: map<int, seq<Key>>, k: Key, f: int)
    requires Filed(freq, lists) && k in freq && f >= 1
    ensures Filed(freq[k := f], Moved(lists, k, freq[k], f))
  {
    var freq', lists' := freq[k := f], Moved(lists, k, freq[k], f);
    forall g ensures NoDup(ListIn(lists', g)) { MovedList(freq, lists, k, f, g); }
    forall g, x | x in ListIn(lists', g) ensures x in freq' && freq'[x] == g {
      MovedList(freq, lists, k, f, g);
      if x != k { assert x in ListIn(lists, g); }
    }
    forall x | x in freq' ensures freq'[x] >= 1 && x in ListIn(lists', freq'[x]) {
      MovedList(freq, lists, k, f, freq'[x]);
      if x != k { assert x in ListIn(lists, freq[x]); }
    }
  }

  // -------------------------------------------------------------- frequencies

  ghost function Sum(freq: map<Key, int>): int {
    if freq.Keys == {} then 0
    else
      var k :| k in freq.Keys;
      freq[k] + Sum(freq - {k})
  }

  lemma {:induction false} SumSplit(freq: map<Key, int>, k: Key)
    requires k in freq
    ensures Sum(freq) == freq[k] + Sum(freq - {k})
    decreases |freq.Keys|
  {
    var x :| x in freq.Keys && Sum(freq) == freq[x] + Sum(freq - {x});
    if x != k {
      SumSplit(freq - {x}, k);
      assert freq - {x} - {k} == freq - {k} - {x};
      SumSplit(freq - {k}, x);
    }
  }

  lemma SumSet(freq: map<Key, int>, k: Key, f: int)
    ensures Sum(freq[k := f]) == Sum(freq) + f - (if k in freq then freq[k] else 0)
  {
    SumSplit(freq[k := f], k);
    assert freq[k := f] - {k} == freq - {k};
    if k in freq {
      SumSplit(freq, k);
    } else {
      assert freq - {k} == freq;
    }
  }

  lemma SumBumped(freq: map<Key, int>, freq': map<Key, int>, k: Key)
    requires k in freq && freq' == freq[k := freq[k] + 1]
    ensures Sum(freq') == Sum(freq) + 1
  {
    SumSet(freq, k, freq[k] + 1);
  }

  /** Pigeonhole: the least frequency is at most the average. */
  lemma {:induction false} SumAtLeast(freq: map<Key, int>, b: int)
    requires forall k :: k in freq ==> freq[k] >= b
    ensures Sum(freq) >= b * |freq|
    decreases |freq.Keys|
  {
    if freq.Keys != {} {
      var k :| k in freq.Keys;
      SumSplit(freq, k);
      SumAtLeast(freq - {k}, b);
      assert |freq - {k}| == |freq| - 1 by { assert (freq - {k}).Keys == freq.Keys - {k}; }
      MulStep(b, |freq|);
    }
  }

  lemma MulStep(b: int, n: nat)
    requires n > 0
    ensures b * n == b * (n - 1) + b
  {
  }

  lemma MulMono(a: int, b: int, n: nat)
    requires a <= b
    ensures a * n <= b * n
  {
  }

  /** m is the true minimum frequency. */
  ghost predicate Minimum(freq: map<Key, int>, m: int) {
    && (exists k :: k in freq && freq[k] == m)
    && (forall k :: k in freq ==> m <= freq[k])
  }

  // ---------------------------------------------------------------- invariant

  /** What holds whatever the limit on the average is. */
  ghost predicate Sound(c: Cache) {
    && Filed(c.freq, c.lists) && c.value.Keys == c.freq.Keys
    && |c.freq| <= c.capacity
    && c.minFreq >= 1
    && c.total >= Sum(c.freq)
  }

  /** The cached minimum is the true one, and within the limit. */
  ghost predicate Exact(c: Cache) {
    c.freq.Keys != {} ==> Minimum(c.freq, c.minFreq) && c.minFreq <= c.maxAverage
  }

  /** The limits under which the cached minimum can be trusted. */
  predicate GoodLimit(m: int) { 2 <= m <= 250 }

  ghost predicate Invariant(c: Cache) {
    Sound(c) && Exact(c)
  }

  /** An order in which the hash map may be traversed. */
  ghost predicate Traversal(c: Cache, order: seq<Key>) {
    NoDup(order) && forall k :: k in order <==> k in c.freq
  }

  // --------------------------------------------------------------------- aging

  lemma {:induction false} AgedIs(c: Cache, order: seq<Key>)
    requires Filed(c.freq, c.lists) && NoDup(order)
    ensures var a := Aged(c, order);
            && Filed(a.freq, a.lists) && a.freq.Keys == c.freq.Keys
            && a == c.(freq := a.freq, lists := a.lists)
            && forall k :: k in c.freq ==> a.freq[k] == if k in order then AgedFreq(c, c.freq[k]) else c.freq[k]
  {
    if order != [] {
      var n := |order| - 1;
      var before, k := order[..n], order[n];
      AgedIs(c, before);
      AgedNext(c, Aged(c, before), order, before, k);
    }
  }

  lemma AgedNext(c: Cache, w: Cache, order: seq<Key>, before: seq<Key>, k: Key)
    requires Filed(w.freq, w.lists) && NoDup(order) && order == before + [k] && w.freq.Keys == c.freq.Keys
    requires forall x :: x in c.freq ==> w.freq[x] == if x in before then AgedFreq(c, c.freq[x]) else c.freq[x]
    requires w == c.(freq := w.freq, lists := w.lists)
    ensures var r := if k in w.freq then Relocated(w, k, AgedFreq(c, w.freq[k])) else w;
            && Filed(r.freq, r.lists) && r.freq.Keys == c.freq.Keys && r == c.(freq := r.freq, lists := r.lists)
            && forall x :: x in c.freq ==> r.freq[x] == if x in order then AgedFreq(c, c.freq[x]) else c.freq[x]
  {
    assert k !in before by {
      forall i | 0 <= i < |before| ensures before[i] != k {
        assert order[i] != order[|before|];
      }
    }
    assert forall x :: x in order <==> x in before || x == k;
    if k in w.freq {
      MovedFiled(w.freq, w.lists, k, AgedFreq(c, w.freq[k]));
    }
  }

  lemma {:induction false} SumShrinks(f: map<Key, int>, g: map<Key, int>)
    requires f.Keys == g.Keys && forall k :: k in f ==> g[k] <= f[k]
    ensures Sum(g) <= Sum(f)
    decreases |f.Keys|
  {
    if f.Keys != {} {
      var k :| k in f.Keys;
      SumSplit(f, k);
      SumSplit(g, k);
      SumShrinks(f - {k}, g - {k});
    }
  }

  /** `updateMinFreq` finds the true minimum exactly when that is below NONE. */
  lemma MinIsExactIff(c: Cache, m: int)
    requires Filed(c.freq, c.lists) && Minimum(c.freq, m)
    ensures Minimum(c.freq, WithMin(c).minFreq) <==> m < NONE
    ensures m >= NONE ==> WithMin(c).minFreq == 1
  {
    var w := WithMin(c).minFreq;
    assert IsMin(c.lists, w);
    var k :| k in c.freq && c.freq[k] == m;
    assert k in ListIn(c.lists, m);
    forall f | f in c.lists && c.lists[f] != [] ensures m <= f {
      assert c.lists[f][0] in ListIn(c.lists, f);
    }
    if m >= NONE {
      assert w == 1;
    } else {
      assert w == m by {
        assert c.lists[w][0] in ListIn(c.lists, w);
      }
    }
  }

  /** An aging pass lowers every frequency and so keeps the sum below the total. */
  lemma AgingIs(c: Cache, order: seq<Key>, m: int)
    requires Filed(c.freq, c.lists) && Traversal(c, order) && Minimum(c.freq, m) && Half(c.maxAverage) >= 0
    ensures var w := Aged(c, order);
            && Filed(w.freq, w.lists) && w.freq.Keys == c.freq.Keys && Sum(w.freq) <= Sum(c.freq)
            && w.total == c.total && w.capacity == c.capacity && w.maxAverage == c.maxAverage && w.value == c.value
            && Minimum(w.freq, AgedFreq(c, m))
            && (c.maxAverage >= 0 ==> forall k :: k in c.freq ==>
                  w.freq[k] == if c.freq[k] <= c.maxAverage / 2 + 1 then 1 else c.freq[k] - c.maxAverage / 2)
  {
    AgedIs(c, order);
    var w := Aged(c, order);
    AgedMinimum(c, w.freq, m);
    SumShrinks(c.freq, w.freq);
  }

  /** A key ends an aging pass at 1 exactly when it had at most one access more than half
      the limit; keys above that keep their distances, and no key overtakes another. */
  lemma AgingIsFair(c: Cache, order: seq<Key>, k: Key, l: Key)
    requires Filed(c.freq, c.lists) && Traversal(c, order) && c.maxAverage >= 0 && k in c.freq && l in c.freq
    ensures var w := Aged(c, order);
            && k in w.freq && l in w.freq
            && (w.freq[k] == 1 <==> c.freq[k] <= c.maxAverage / 2 + 1)
            && (c.freq[k] > c.maxAverage / 2 && c.freq[l] > c.maxAverage / 2 ==> w.freq[k] - w.freq[l] == c.freq[k] - c.freq[l])
            && (c.freq[k] <= c.freq[l] ==> 1 <= w.freq[k] <= w.freq[l])
  {
    AgedIs(c, order);
  }

  lemma AgedMinimum(c: Cache, freq: map<Key, int>, m: int)
    requires freq.Keys == c.freq.Keys && Minimum(c.freq, m) && Half(c.maxAverage) >= 0
    requires forall k :: k in c.freq ==> c.freq[k] >= 1
    requires forall k :: k in c.freq ==> freq[k] == AgedFreq(c, c.freq[k])
    ensures Minimum(freq, AgedFreq(c, m)) && forall k :: k in freq ==> freq[k] <= c.freq[k]
  {
  }

  // --------------------------------------------------------------- every step

  /** A state in which one access was applied but not counted yet: the cached
      minimum is exact and at most one above the limit. */
  ghost predicate Uncounted(c: Cache) {
    && Filed(c.freq, c.lists) && c.value.Keys == c.freq.Keys
    && |c.freq| <= c.capacity && c.total + 1 >= Sum(c.freq)
    && c.freq.Keys != {} && Minimum(c.freq, c.minFreq) && c.minFreq <= c.maxAverage + 1
    && GoodLimit(c.maxAverage)
  }

  ghost predicate CountedWell(c: Cache, w: Cache) {
    && Invariant(w) && w.freq.Keys == c.freq.Keys && w.value == c.value
    && w.capacity == c.capacity && w.maxAverage == c.maxAverage
    && (c.minFreq == 1 ==> w.minFreq == 1)
  }

  /** Counting an access restores the limit, by aging if need be. */
  lemma CountedKeeps(c: Cache, order: seq<Key>)
    requires Uncounted(c) && Traversal(c, order)
    ensures CountedWell(c, Counted(c, order))
  {
    CountedIs(c, order);
    if Overflows(c) {
      CountedAging(c, order);
    } else {
      CountedPlain(c, c.(total := c.total + 1));
    }
  }

  lemma CountedIs(c: Cache, order: seq<Key>)
    ensures Counted(c, order) == if Overflows(c) then WithMin(Aged(c.(total := c.total + 1), order)) else c.(total := c.total + 1)
  {
  }

  lemma CountedPlain(c: Cache, w: Cache)
    requires Uncounted(c) && !Overflows(c) && w == c.(total := c.total + 1)
    ensures CountedWell(c, w)
  {
    SumAtLeast(c.freq, c.minFreq);
    AverageBound(c.minFreq, |c.freq|, c.total + 1, c.maxAverage);
    LeastIsPositive(c);
  }

  lemma LeastIsPositive(c: Cache)
    requires Filed(c.freq, c.lists) && Minimum(c.freq, c.minFreq)
    ensures c.minFreq >= 1
  {
  }

  lemma CountedAging(c: Cache, order: seq<Key>)
    requires Uncounted(c) && Traversal(c, order)
    ensures CountedWell(c, WithMin(Aged(c.(total := c.total + 1), order)))
  {
    var b := c.(total := c.total + 1);
    AgingIs(b, order, c.minFreq);
    AgedIsExact(b, Aged(b, order), c.minFreq);
    SameSize(Aged(b, order).freq, c.freq);
  }

  lemma AgedIsExact(b: Cache, a: Cache, m: int)
    requires Filed(a.freq, a.lists) && Minimum(a.freq, AgedFreq(b, m)) && a.maxAverage == b.maxAverage
    requires 1 <= m <= b.maxAverage + 1 && GoodLimit(b.maxAverage)
    ensures var w := WithMin(a);
            && w == a.(minFreq := w.minFreq) && Minimum(w.freq, w.minFreq)
            && w.minFreq == AgedFreq(b, m) && 1 <= w.minFreq <= b.maxAverage
  {
    var w := WithMin(a);
    MinIsExactIff(a, AgedFreq(b, m));
    MinimumUnique(a.freq, AgedFreq(b, m), w.minFreq);
  }

  lemma SameSize(f: map<Key, int>, g: map<Key, int>)
    requires f.Keys == g.Keys
    ensures |f| == |g|
  {
  }

  lemma MinimumUnique(freq: map<Key, int>, m: int, n: int)
    requires Minimum(freq, m) && Minimum(freq, n)
    ensures m == n
  {
  }

  lemma AverageBound(m: int, n: nat, total: int, limit: int)
    requires n > 0 && m * n <= total && total / n <= limit
    ensures m <= limit
  {
    var q := total / n;
    assert total == q * n + total % n;
    assert (q + 1) * n == q * n + n;
    if q < m {
      MulMono(q + 1, m, n);
      assert false;
    }
  }

  /** An access moves a key up; the cached minimum follows when its list runs empty. */
  lemma BumpedKeeps(c: Cache, k: Key)
    requires Invariant(c) && k in c.freq && GoodLimit(c.maxAverage)
    ensures Uncounted(Bumped(c, k)) && Bumped(c, k).freq.Keys == c.freq.Keys && Bumped(c, k).value == c.value
    ensures Bumped(c, k).capacity == c.capacity && Bumped(c, k).maxAverage == c.maxAverage
  {
    BumpedFields(c, k);
    BumpedExact(c, k);
    BumpedSum(c, k);
  }

  lemma BumpedExact(c: Cache, k: Key)
    requires Filed(c.freq, c.lists) && k in c.freq && Minimum(c.freq, c.minFreq)
    ensures var b := Bumped(c, k); Filed(b.freq, b.lists) && Minimum(b.freq, b.minFreq)
  {
    BumpedFiled(c, k);
    BumpedLeast(c, k);
  }

  lemma BumpedFiled(c: Cache, k: Key)
    requires Filed(c.freq, c.lists) && k in c.freq
    ensures Filed(Bumped(c, k).freq, Bumped(c, k).lists)
  {
    BumpedFields(c, k);
    MovedFiled(c.freq, c.lists, k, c.freq[k] + 1);
  }

  lemma BumpedLeast(c: Cache, k: Key)
    requires k in c.freq && Minimum(c.freq, c.minFreq) && Filed(Bumped(c, k).freq, Bumped(c, k).lists)
    ensures Minimum(Bumped(c, k).freq, Bumped(c, k).minFreq)
  {
    var b, freq := Bumped(c, k), c.freq[k := c.freq[k] + 1];
    BumpedFields(c, k);
    assert b.freq == freq;
    BumpedMinimum(c.freq, c.minFreq, b.lists, k);
    assert b.minFreq == if c.freq[k] == c.minFreq && ListIn(b.lists, c.freq[k]) == [] then c.minFreq + 1 else c.minFreq;
  }

  lemma BumpedSum(c: Cache, k: Key)
    requires k in c.freq
    ensures Sum(Bumped(c, k).freq) == Sum(c.freq) + 1 && |Bumped(c, k).freq| == |c.freq|
  {
    BumpedFields(c, k);
    SumBumped(c.freq, Bumped(c, k).freq, k);
    SameSize(Bumped(c, k).freq, c.freq);
  }

  lemma BumpedFields(c: Cache, k: Key)
    requires k in c.freq
    ensures var f, b := c.freq[k], Bumped(c, k);
            && b.freq == c.freq[k := f + 1] && b.freq.Keys == c.freq.Keys
            && b.lists == Moved(c.lists, k, f, f + 1) && b.value == c.value
            && b.minFreq == (if f == c.minFreq && ListIn(b.lists, f) == [] then c.minFreq + 1 else c.minFreq)
            && b.total == c.total && b.capacity == c.capacity && b.maxAverage == c.maxAverage
  {
  }

  lemma BumpedMinimum(freq: map<Key, int>, m: int, lists: map<int, seq<Key>>, k: Key)
    requires k in freq && Minimum(freq, m) && Filed(freq[k := freq[k] + 1], lists)
    ensures Minimum(freq[k := freq[k] + 1], if freq[k] == m && ListIn(lists, freq[k]) == [] then m + 1 else m)
  {
    var freq' := freq[k := freq[k] + 1];
    assert freq'[k] == freq[k] + 1;
    if freq[k] != m {
      var x :| x in freq && freq[x] == m;
      assert freq'[x] == m;
    } else if ListIn(lists, m) == [] {
      forall x | x in freq' ensures m + 1 <= freq'[x] {
        assert x in ListIn(lists, freq'[x]);
      }
    } else {
      var x := ListIn(lists, m)[0];
      assert x in ListIn(lists, m);
    }
  }

  lemma TouchedKeeps(c: Cache, k: Key, order: seq<Key>)
    requires Invariant(c) && k in c.freq && GoodLimit(c.maxAverage) && Traversal(c, order)
    ensures Invariant(Touched(c, k, order)) && Touched(c, k, order).freq.Keys == c.freq.Keys
    ensures Touched(c, k, order).capacity == c.capacity && Touched(c, k, order).maxAverage == c.maxAverage
    ensures Touched(c, k, order).value == c.value
  {
    BumpedKeeps(c, k);
    CountedKeeps(Bumped(c, k), order);
  }

  /** A full cache has an entry to evict, and evicting makes room for one. */
  lemma EvictedKeeps(c: Cache)
    requires Invariant(c) && c.freq.Keys != {}
    ensures c.List(c.minFreq) != [] && c.List(c.minFreq)[0] in c.freq
    ensures Sound(Evicted(c)) && Evicted(c).freq == c.freq - {c.List(c.minFreq)[0]}
    ensures |Evicted(c).freq| == |c.freq| - 1
    ensures c.freq[c.List(c.minFreq)[0]] == c.minFreq
  {
    var v := Victim(c);
    SumSplit(c.freq, v);
    assert (c.freq - {v}).Keys == c.freq.Keys - {v};
    EvictedFiled(c.freq, c.lists, c.minFreq);
  }

  lemma Victim(c: Cache) returns (v: Key)
    requires Filed(c.freq, c.lists) && Minimum(c.freq, c.minFreq)
    ensures c.List(c.minFreq) != [] && v == c.List(c.minFreq)[0] && v in c.freq && c.freq[v] == c.minFreq
  {
    var k :| k in c.freq && c.freq[k] == c.minFreq;
    assert k in c.List(c.minFreq);
    v := c.List(c.minFreq)[0];
    assert v in c.List(c.minFreq);
  }

  lemma DropFirst(s: seq<Key>)
    requires s != [] && NoDup(s)
    ensures NoDup(s[1..]) && forall x :: x in s[1..] <==> x in s && x != s[0]
  {
  }

  /** Dropping the first key of a list. */
  lemma EvictedFiled(freq: map<Key, int>, lists: map<int, seq<Key>>, m: int)
    requires Filed(freq, lists) && ListIn(lists, m) != []
    ensures Filed(freq - {ListIn(lists, m)[0]}, lists[m := ListIn(lists, m)[1..]])
  {
    var s := ListIn(lists, m);
    var v := s[0];
    var freq', lists' := freq - {v}, lists[m := s[1..]];
    assert NoDup(s) && v in s;
    DropFirst(s);
    forall f ensures NoDup(ListIn(lists', f)) {
      assert NoDup(ListIn(lists, f));
    }
    assert forall f, x {:trigger x in ListIn(lists', f)} :: x in ListIn(lists', f) <==> x in ListIn(lists, f) && x != v;
    forall k | k in freq' ensures freq'[k] >= 1 && k in ListIn(lists', freq'[k]) {
      assert k in ListIn(lists, freq[k]);
    }
  }

  lemma StoredKeeps(c: Cache, k: Key, v: Value)
    requires Sound(c) && k !in c.freq && |c.freq| < c.capacity && GoodLimit(c.maxAverage)
    ensures var w := Stored(c, k, v); Uncounted(w.(minFreq := 1)) && w.freq.Keys == c.freq.Keys + {k}
  {
    var w := Stored(c, k, v);
    StoredSum(c.freq, w.freq, k);
    StoredFiled(c.freq, c.lists, k);
    StoredMinimum(c, k, w.freq);
  }

  lemma StoredSum(freq: map<Key, int>, freq': map<Key, int>, k: Key)
    requires k !in freq && freq' == freq[k := 1]
    ensures Sum(freq') == Sum(freq) + 1 && |freq'| == |freq| + 1 && freq'.Keys == freq.Keys + {k}
  {
    SumSet(freq, k, 1);
    assert freq'.Keys == freq.Keys + {k};
    assert |freq'.Keys| == |freq.Keys| + 1;
  }

  lemma StoredMinimum(c: Cache, k: Key, freq: map<Key, int>)
    requires Filed(c.freq, c.lists) && k !in c.freq && freq == c.freq[k := 1]
    ensures Minimum(freq, 1)
  {
    assert freq[k] == 1;
  }

  /** A new key enters the list of frequency 1. */
  lemma StoredFiled(freq: map<Key, int>, lists: map<int, seq<Key>>, k: Key)
    requires Filed(freq, lists) && k !in freq
    ensures Filed(freq[k := 1], lists[1 := ListIn(lists, 1) + [k]])
  {
    var freq', lists' := freq[k := 1], lists[1 := ListIn(lists, 1) + [k]];
    assert k !in ListIn(lists, 1);
    forall f, x | x in ListIn(lists', f) ensures x in freq' && freq'[x] == f {
      if f != 1 || x != k { assert x in ListIn(lists, f); }
    }
    forall x | x in freq' ensures freq'[x] >= 1 && x in ListIn(lists', freq'[x]) {
      if x != k { assert x in ListIn(lists, freq[x]); }
    }
    forall f ensures NoDup(ListIn(lists', f)) {
      assert NoDup(ListIn(lists, f));
      assert f != 1 ==> ListIn(lists', f) == ListIn(lists, f);
    }
  }

  // ------------------------------------------------------------------ inserting

  lemma {:induction false} AgedIgnoresMin(c: Cache, order: seq<Key>, m: int)
    ensures Aged(c.(minFreq := m), order) == Aged(c, order).(minFreq := m)
  {
    if order != [] {
      AgedIgnoresMin(c, order[..|order| - 1], m);
    }
  }

  lemma WithMinIs(c: Cache, m: int)
    requires IsMin(c.lists, m)
    ensures WithMin(c) == c.(minFreq := m)
  {
  }

  lemma WithMinIgnoresMin(c: Cache, m: int)
    ensures WithMin(c.(minFreq := m)) == WithMin(c)
  {
  }

  /** A stale cached minimum does no harm when a key enters: the new key has
      frequency 1, and 1 is what the cached minimum is lowered to. */
  lemma StaleMinimumIsForgotten(w: Cache, order: seq<Key>)
    requires w.minFreq >= 1
    ensures Counted(w, order).(minFreq := 1) == Counted(w.(minFreq := 1), order).(minFreq := 1)
    ensures Overflows(w) || Counted(w, order).minFreq >= 1
    ensures Overflows(w) ==> Counted(w, order) == Counted(w.(minFreq := 1), order)
  {
    var x, y := w.(total := w.total + 1), w.(minFreq := 1);
    CountedIs(w, order);
    CountedIs(y, order);
    AgedIgnoresMin(x, order, 1);
    WithMinIgnoresMin(Aged(x, order), 1);
    assert y.(total := y.total + 1) == x.(minFreq := 1);
  }

  lemma RoomKeeps(c: Cache)
    requires Invariant(c) && c.capacity >= 1
    ensures Sound(Room(c)) && |Room(c).freq| < c.capacity && Room(c).freq.Keys <= c.freq.Keys
    ensures Room(c).capacity == c.capacity && Room(c).maxAverage == c.maxAverage
    ensures |c.freq| == c.capacity ==>
              c.List(c.minFreq) != [] && Room(c).freq.Keys == c.freq.Keys - {c.List(c.minFreq)[0]}
    ensures |c.freq| < c.capacity ==> Room(c) == c
  {
    if |c.freq| == c.capacity {
      assert |c.freq| == |c.freq.Keys|;
      EvictedKeeps(c);
    }
  }

  lemma InsertedKeeps(c: Cache, k: Key, v: Value, order: seq<Key>)
    requires Invariant(c) && c.capacity >= 1 && k !in c.freq && GoodLimit(c.maxAverage)
    requires Traversal(Stored(Room(c), k, v), order)
    ensures CountedWell(Stored(Room(c), k, v).(minFreq := 1), Inserted(c, k, v, order))
  {
    RoomKeeps(c);
    StoredKeeps(Room(c), k, v);
    var w := Stored(Room(c), k, v);
    var y := w.(minFreq := 1);
    CountedKeeps(y, order);
    StaleMinimumIsForgotten(w, order);
    assert Inserted(c, k, v, order) == Counted(y, order) by {
      assert Counted(y, order).minFreq == 1;
      assert Counted(y, order).(minFreq := 1) == Counted(y, order);
    }
  }

  // ---------------------------------------------------------------------- runs

  datatype Event = PutKey(key: Key, value: Value, order: seq<Key>) | GetKey(key: Key, order: seq<Key>) | Purge

  ghost function Apply(c: Cache, e: Event): Cache {
    match e
    case PutKey(k, v, order) => Put(c, k, v, order)
    case GetKey(k, order) => Get(c, k, order)
    case Purge => Purged(c)
  }

  /** The traversal order, should this step age the cache, visits each key once. */
  ghost predicate Enabled(c: Cache, e: Event) {
    match e
    case PutKey(k, v, order) => if k in c.freq then Traversal(c, order) else Traversal(Stored(Room(c), k, v), order)
    case GetKey(k, order) => Traversal(c, order)
    case Purge => true
  }

  lemma PutKeeps(c: Cache, k: Key, v: Value, order: seq<Key>)
    requires Invariant(c) && c.capacity >= 1 && GoodLimit(c.maxAverage) && Enabled(c, PutKey(k, v, order))
    ensures var w := Put(c, k, v, order);
            Invariant(w) && w.capacity == c.capacity && w.maxAverage == c.maxAverage && k in w.freq && w.value[k] == v
  {
    if k in c.freq {
      var w := c.(value := c.value[k := v]);
      assert w.value.Keys == c.value.Keys;
      TouchedKeeps(w, k, order);
    } else {
      PutNewKeeps(c, k, v, order);
    }
  }

  lemma PutNewKeeps(c: Cache, k: Key, v: Value, order: seq<Key>)
    requires Invariant(c) && c.capacity >= 1 && GoodLimit(c.maxAverage) && k !in c.freq && Enabled(c, PutKey(k, v, order))
    ensures var w := Put(c, k, v, order);
            Invariant(w) && w.capacity == c.capacity && w.maxAverage == c.maxAverage && k in w.freq && w.value[k] == v
  {
    InsertedKeeps(c, k, v, order);
    var s := Stored(Room(c), k, v);
    RoomFields(c);
    assert s.value[k] == v && k in s.freq && s.capacity == c.capacity && s.maxAverage == c.maxAverage;
  }

  lemma PurgeKeeps(c: Cache)
    requires Invariant(c)
    ensures Invariant(Purged(c)) && Purged(c).freq.Keys == {}
    ensures Purged(c).total == c.total && Purged(c).minFreq == c.minFreq && Purged(c).capacity == c.capacity
  {
    SumAtLeast(c.freq, 0);
    assert |Purged(c).freq| == 0;
  }

  lemma StepKeepsInvariant(c: Cache, e: Event)
    requires Invariant(c) && c.capacity >= 1 && GoodLimit(c.maxAverage) && Enabled(c, e)
    ensures Invariant(Apply(c, e)) && Apply(c, e).capacity == c.capacity && Apply(c, e).maxAverage == c.maxAverage
  {
    match e
    case PutKey(k, v, order) => PutKeeps(c, k, v, order);
    case GetKey(k, order) => if k in c.freq { TouchedKeeps(c, k, order); }
    case Purge => PurgeKeeps(c);
  }

  /** Step k of a run. */
  ghost predicate StepAt(states: seq<Cache>, events: seq<Event>, k: nat)
    requires k < |events| && |states| == |events| + 1
  {
    Enabled(states[k], events[k]) && states[k + 1] == Apply(states[k], events[k])
  }

  ghost predicate Run(states: seq<Cache>, events: seq<Event>, capacity: nat, maxAverage: int) {
    && |states| == |events| + 1
    && states[0] == Empty(capacity, maxAverage)
    && forall k {:trigger StepAt(states, events, k)} :: 0 <= k < |events| ==> StepAt(states, events, k)
  }

  // ----------------------------------------------------- whatever the limit is

  /** What every run keeps, whatever its limit: each key is filed, list 1 exists while
      there are keys, and the cached minimum names a non-empty list or is 1. */
  ghost predicate Tame(c: Cache) {
    && Filed(c.freq, c.lists) && c.value.Keys == c.freq.Keys && c.minFreq >= 1
    && (c.freq.Keys != {} ==> 1 in c.lists && (c.List(c.minFreq) != [] || c.minFreq == 1))
  }

  lemma {:induction false} AgedKeepsLists(c: Cache, order: seq<Key>)
    ensures c.lists.Keys <= Aged(c, order).lists.Keys
  {
    if order != [] {
      AgedKeepsLists(c, order[..|order| - 1]);
    }
  }

  /** The minimum that `updateMinFreq` finds names a non-empty list, or is 1. */
  lemma WithMinIsTame(c: Cache)
    requires Filed(c.freq, c.lists)
    ensures var m := WithMin(c).minFreq; m >= 1 && (c.List(m) != [] || m == 1)
  {
    var m := WithMin(c).minFreq;
    assert IsMin(c.lists, m);
    if c.List(m) != [] {
      assert c.List(m)[0] in ListIn(c.lists, m);
    }
  }

  /** Counting keeps what is filed; a minimum it recomputes is tame. */
  lemma CountedIsTame(c: Cache, order: seq<Key>)
    requires Filed(c.freq, c.lists) && Traversal(c, order) && c.minFreq >= 1
    ensures var w := Counted(c, order);
            && Filed(w.freq, w.lists) && w.freq.Keys == c.freq.Keys && w.value == c.value && c.lists.Keys <= w.lists.Keys
            && w.minFreq >= 1 && w.capacity == c.capacity && w.maxAverage == c.maxAverage
            && (Overflows(c) ==> w.List(w.minFreq) != [] || w.minFreq == 1)
            && (!Overflows(c) ==> w.minFreq == c.minFreq && w.lists == c.lists)
  {
    CountedIs(c, order);
    if Overflows(c) {
      var b := c.(total := c.total + 1);
      AgedIs(b, order);
      AgedKeepsLists(b, order);
      WithMinIsTame(Aged(b, order));
    }
  }

  /** The cached minimum still names a non-empty list after an access, or is 1. */
  lemma BumpedIsTame(c: Cache, k: Key)
    requires Tame(c) && k in c.freq
    ensures Tame(Bumped(c, k)) && Bumped(c, k).freq.Keys == c.freq.Keys
  {
    var b, f := Bumped(c, k), c.freq[k];
    BumpedFields(c, k);
    BumpedFiled(c, k);
    assert k in ListIn(b.lists, f + 1);
    if f != c.minFreq && c.List(c.minFreq) != [] {
      MovedKeepsOthers(c.lists, k, f, f + 1, c.minFreq);
    }
  }

  lemma MovedKeepsOthers(lists: map<int, seq<Key>>, k: Key, from: int, to: int, m: int)
    requires ListIn(lists, m) != [] && m != from
    ensures ListIn(Moved(lists, k, from, to), m) != []
  {
  }

  lemma TouchedIsTame(c: Cache, k: Key, order: seq<Key>)
    requires Tame(c) && k in c.freq && Traversal(c, order)
    ensures Tame(Touched(c, k, order)) && Touched(c, k, order).freq.Keys == c.freq.Keys
  {
    BumpedIsTame(c, k);
    CountedIsTame(Bumped(c, k), order);
  }

  lemma RoomIsTame(c: Cache)
    requires Tame(c)
    ensures var r := Room(c); Filed(r.freq, r.lists) && r.value.Keys == r.freq.Keys && r.minFreq == c.minFreq
  {
    var s := c.List(c.minFreq);
    if |c.freq| == c.capacity && s != [] {
      EvictedFiled(c.freq, c.lists, c.minFreq);
      assert (c.value - {s[0]}).Keys == c.value.Keys - {s[0]} == (c.freq - {s[0]}).Keys;
    }
  }

  lemma StoredIsTame(r: Cache, k: Key, v: Value)
    requires Filed(r.freq, r.lists) && r.value.Keys == r.freq.Keys && k !in r.freq && r.minFreq >= 1
    ensures var w := Stored(r, k, v);
            && Filed(w.freq, w.lists) && w.value.Keys == w.freq.Keys && w.freq.Keys == r.freq.Keys + {k}
            && w.minFreq >= 1 && 1 in w.lists
  {
    StoredFiled(r.freq, r.lists, k);
  }

  lemma InsertedIsTame(c: Cache, k: Key, v: Value, order: seq<Key>)
    requires Tame(c) && k !in c.freq && Traversal(Stored(Room(c), k, v), order)
    ensures var w := Inserted(c, k, v, order); Tame(w) && w.freq.Keys == Room(c).freq.Keys + {k} && w.minFreq == 1
  {
    RoomIsTame(c);
    RoomFields(c);
    StoredIsTame(Room(c), k, v);
    var s := Stored(Room(c), k, v);
    CountedIsTame(s, order);
    InsertedIs(c, k, v, order, Counted(s, order));
  }

  lemma InsertedIs(c: Cache, k: Key, v: Value, order: seq<Key>, w: Cache)
    requires w == Counted(Stored(Room(c), k, v), order) && w.minFreq >= 1
    ensures Inserted(c, k, v, order) == w.(minFreq := 1)
  {
  }

  lemma StepIsTame(c: Cache, e: Event)
    requires Tame(c) && Enabled(c, e)
    ensures Tame(Apply(c, e))
  {
    match e
    case PutKey(k, v, order) =>
      if c.capacity > 0 {
        if k in c.freq {
          var w := c.(value := c.value[k := v]);
          assert w.value.Keys == c.value.Keys;
          TouchedIsTame(w, k, order);
        } else {
          InsertedIsTame(c, k, v, order);
        }
      }
    case GetKey(k, order) => if k in c.freq { TouchedIsTame(c, k, order); }
    case Purge =>
  }

  /** Whatever the limit, a key that was put is present with its value. */
  lemma PutStores(c: Cache, k: Key, v: Value, order: seq<Key>)
    requires Tame(c) && c.capacity > 0 && Enabled(c, PutKey(k, v, order))
    ensures var w := Put(c, k, v, order); k in w.value && w.value[k] == v
  {
    if k in c.freq {
      var w := c.(value := c.value[k := v]);
      assert w.value.Keys == c.value.Keys;
      TouchedKeepsValues(w, k, order);
    } else {
      InsertedStores(c, k, v, order);
    }
  }

  lemma TouchedKeepsValues(c: Cache, k: Key, order: seq<Key>)
    requires Tame(c) && k in c.freq && Traversal(c, order)
    ensures Touched(c, k, order).value == c.value
  {
    BumpedIsTame(c, k);
    BumpedFields(c, k);
    CountedIsTame(Bumped(c, k), order);
  }

  lemma InsertedStores(c: Cache, k: Key, v: Value, order: seq<Key>)
    requires Tame(c) && k !in c.freq && Traversal(Stored(Room(c), k, v), order)
    ensures var w := Inserted(c, k, v, order); k in w.value && w.value[k] == v
  {
    RoomIsTame(c);
    RoomFields(c);
    StoredIsTame(Room(c), k, v);
    CountedIsTame(Stored(Room(c), k, v), order);
  }

  lemma {:induction false} AgedKeepsSettings(c: Cache, order: seq<Key>)
    ensures Aged(c, order).capacity == c.capacity && Aged(c, order).maxAverage == c.maxAverage
  {
    if order != [] {
      AgedKeepsSettings(c, order[..|order| - 1]);
    }
  }

  lemma CountedKeepsSettings(c: Cache, order: seq<Key>)
    ensures Counted(c, order).capacity == c.capacity && Counted(c, order).maxAverage == c.maxAverage
  {
    CountedIs(c, order);
    AgedKeepsSettings(c.(total := c.total + 1), order);
  }

  lemma StepKeepsSettings(c: Cache, e: Event)
    ensures Apply(c, e).capacity == c.capacity && Apply(c, e).maxAverage == c.maxAverage
  {
    match e
    case PutKey(k, v, order) =>
      if k in c.freq {
        CountedKeepsSettings(Bumped(c.(value := c.value[k := v]), k), order);
      } else {
        CountedKeepsSettings(Stored(Room(c), k, v), order);
      }
    case GetKey(k, order) => if k in c.freq { CountedKeepsSettings(Bumped(c, k), order); }
    case Purge =>
  }

  /** No run ever follows a null pointer, whatever its capacity and its limit: a cache that
      has entries to make room for has a list at its cached minimum. */
  lemma {:induction false} RunIsTame(states: seq<Cache>, events: seq<Event>, capacity: nat, maxAverage: int, i: nat)
    requires Run(states, events, capacity, maxAverage) && i < |states|
    ensures Tame(states[i]) && states[i].capacity == capacity && states[i].maxAverage == maxAverage
    ensures states[i].freq.Keys != {} ==> states[i].minFreq in states[i].lists
  {
    if i > 0 {
      RunIsTame(states, events, capacity, maxAverage, i - 1);
      assert StepAt(states, events, i - 1);
      StepIsTame(states[i - 1], events[i - 1]);
      StepKeepsSettings(states[i - 1], events[i - 1]);
    }
  }

  /** A cache without capacity never holds anything. */
  lemma {:induction false} ZeroCapacityHoldsNothing(states: seq<Cache>, events: seq<Event>, maxAverage: int, i: nat)
    requires Run(states, events, 0, maxAverage) && i < |states|
    ensures states[i].capacity == 0 && states[i].freq.Keys == {} && states[i].total == 0
  {
    if i > 0 {
      ZeroCapacityHoldsNothing(states, events, maxAverage, i - 1);
      assert StepAt(states, events, i - 1);
      EmptyStaysEmpty(states[i - 1], events[i - 1]);
    }
  }

  lemma EmptyStaysEmpty(c: Cache, e: Event)
    requires c.capacity == 0 && c.freq.Keys == {}
    ensures var w := Apply(c, e); w.capacity == 0 && w.freq.Keys == {} && w.total == c.total
  {
  }

  lemma ExtendedRun(states: seq<Cache>, events: seq<Event>, capacity: nat, maxAverage: int, e: Event, w: Cache)
    requires Run(states, events, capacity, maxAverage)
    requires Enabled(states[|events|], e) && w == Apply(states[|events|], e)
    ensures Run(states + [w], events + [e], capacity, maxAverage)
  {
    var n, ss, es := |events|, states + [w], events + [e];
    forall k | 0 <= k <= n ensures StepAt(ss, es, k) {
      assert ss[k] == states[k] && ss[k + 1] == (if k < n then states[k + 1] else w);
      assert es[k] == if k < n then events[k] else e;
      assert k < n ==> StepAt(states, events, k);
    }
  }

  /** With a limit between 2 and 250, after any run of put, get and purge the cached
      minimum frequency of a non-empty cache is the true one, and the cache never
      holds more entries than its capacity. */
  lemma {:induction false} RunIsExact(states: seq<Cache>, events: seq<Event>, capacity: nat, maxAverage: int, i: nat)
    requires Run(states, events, capacity, maxAverage) && i < |states| && capacity >= 1 && GoodLimit(maxAverage)
    ensures Invariant(states[i]) && states[i].capacity == capacity && states[i].maxAverage == maxAverage
  {
    if i > 0 {
      RunIsExact(states, events, capacity, maxAverage, i - 1);
      assert StepAt(states, events, i - 1);
      StepKeepsInvariant(states[i - 1], events[i - 1]);
    }
  }
}
