/**
 The limits outside 2..250 make the cache outgrow its capacity: a run fills it, brings
 all its keys out of reach of the cached minimum, and then puts one more.
 */
module LfuOverfill {
  import opened Sequences
  import opened LfuCache

  // ------------------------------------------------------------- one put too many

  /** A full cache whose cached minimum names an empty list. */
  ghost predicate Stuck(c: Cache) {
    Tame(c) && |c.freq| == c.capacity > 0 && c.List(c.minFreq) == []
  }

  lemma OneMore(f: map<Key, int>, g: map<Key, int>, k: Key)
    requires k !in f && g.Keys == f.Keys + {k}
    ensures |g| == |f| + 1
  {
    assert |g| == |g.Keys| && |f| == |f.Keys|;
  }

  /** Nothing is evicted from a stuck cache, and the new key enters all the same; in any
      other full cache a key makes room for it. */
  lemma FullCacheOverfillsIff(c: Cache, k: Key, v: Value, order: seq<Key>)
    requires Tame(c) && |c.freq| == c.capacity > 0 && k !in c.freq && Enabled(c, PutKey(k, v, order))
    ensures |Put(c, k, v, order).freq| == c.capacity + if c.List(c.minFreq) == [] then 1 else 0
  {
    InsertedIsTame(c, k, v, order);
    var w, r := Put(c, k, v, order), Room(c);
    RoomSize(c);
    OneMore(r.freq, w.freq, k);
  }

  lemma RoomSize(c: Cache)
    requires Tame(c) && |c.freq| == c.capacity > 0
    ensures |Room(c).freq| == c.capacity - (if c.List(c.minFreq) == [] then 0 else 1) && Room(c).freq.Keys <= c.freq.Keys
  {
    if c.List(c.minFreq) != [] {
      var s := c.List(c.minFreq)[0];
      EvictedIs(c, s);
      assert (c.freq - {s}).Keys + {s} == c.freq.Keys;
      OneMore(c.freq - {s}, c.freq, s);
    }
  }

  // -------------------------------------------------------------------- ladders

  /** The keys below n, in order. */
  function Below(n: nat): (s: seq<Key>)
    ensures |s| == n && forall i: nat :: i < n ==> s[i] == i
  {
    seq(n, i requires 0 <= i < n => i as Key)
  }

  ghost predicate HasKeysBelow(freq: map<Key, int>, n: nat) {
    |freq| == n && forall k: Key :: k in freq <==> k < n
  }

  lemma BelowIsTraversal(c: Cache, n: nat)
    requires HasKeysBelow(c.freq, n)
    ensures Traversal(c, Below(n))
  {
    forall k: Key ensures k in Below(n) <==> k in c.freq {
      if k < n { assert Below(n)[k] == k; }
    }
  }

  /** Keys 0 to n - 1, the first j of them one access above level f. */
  ghost predicate Levels(freq: map<Key, int>, n: nat, f: int, j: nat) {
    && HasKeysBelow(freq, n) && 0 < n && j <= n && f >= 1
    && forall k: Key {:trigger freq[k]} :: k in freq ==> freq[k] == if k < j then f + 1 else f
  }

  ghost predicate Ladder(c: Cache, n: nat, f: int, j: nat) {
    Tame(c) && Levels(c.freq, n, f, j) && c.total == n * f + j
  }

  /** A round completed is the next level begun. */
  lemma NextLevel(c: Cache, n: nat, f: int)
    requires Ladder(c, n, f, n)
    ensures Ladder(c, n, f + 1, 0)
  {
    assert n * (f + 1) == n * f + n;
  }

  /** The next key climbs one level. */
  lemma LevelsClimb(freq: map<Key, int>, freq': map<Key, int>, n: nat, f: int, j: nat)
    requires Levels(freq, n, f, j) && j < n && freq' == freq[j := f + 1]
    ensures Levels(freq', n, f, j + 1)
  {
    assert freq'.Keys == freq.Keys;
    assert |freq'| == |freq'.Keys| && |freq| == |freq.Keys|;
  }

  lemma LadderAverage(n: nat, f: int, j: nat)
    requires j < n && f >= 1
    ensures n * f + j + 1 >= 0 && Average(n * f + j + 1, n) == if j + 1 < n then f else f + 1
  {
    var t := n * f + j + 1;
    assert n * f >= n by { MulMono(1, f, n); assert f * n == n * f; }
    if j + 1 < n {
      Quotient(t, n, f, j + 1);
    } else {
      assert t == n * (f + 1);
      Quotient(t, n, f + 1, 0);
    }
  }

  lemma Quotient(t: int, n: nat, q: int, r: nat)
    requires n > 0 && t == n * q + r && r < n
    ensures t / n == q
  {
    var p := t / n;
    assert t == n * p + t % n;
    if p < q {
      MulMono(p + 1, q, n);
      assert false;
    } else if q < p {
      MulMono(q + 1, p, n);
      assert false;
    }
  }

  /** The frequencies after counting: lowered by half the limit when the average is over. */
  lemma CountedFreq(c: Cache, order: seq<Key>, k: Key)
    requires Filed(c.freq, c.lists) && Traversal(c, order) && k in c.freq
    ensures var w := Counted(c, order);
            k in w.freq && w.freq[k] == if Overflows(c) then AgedFreq(c, c.freq[k]) else c.freq[k]
  {
    CountedIs(c, order);
    if Overflows(c) {
      AgedIs(c.(total := c.total + 1), order);
    }
  }

  lemma CountedTotal(c: Cache, order: seq<Key>)
    requires Filed(c.freq, c.lists) && Traversal(c, order)
    ensures Counted(c, order).total == c.total + 1
  {
    CountedIs(c, order);
    if Overflows(c) {
      AgedIs(c.(total := c.total + 1), order);
    }
  }

  /** No frequency changes as long as the average is within the limit, or half the limit
      is nothing. */
  lemma CountedUntouched(c: Cache, order: seq<Key>)
    requires Filed(c.freq, c.lists) && Traversal(c, order) && (!Overflows(c) || Half(c.maxAverage) == 0)
    ensures Counted(c, order).freq == c.freq
  {
    var w := Counted(c, order);
    CountedKeys(c, order);
    forall k: Key | k in c.freq ensures w.freq[k] == c.freq[k] {
      CountedFreq(c, order, k);
    }
  }

  lemma CountedKeys(c: Cache, order: seq<Key>)
    requires Filed(c.freq, c.lists) && Traversal(c, order)
    ensures Counted(c, order).freq.Keys == c.freq.Keys
  {
    CountedIs(c, order);
    if Overflows(c) {
      AgedIs(c.(total := c.total + 1), order);
    }
  }

  // ------------------------------------------------------------------- climbing

  /** The state of an access to key j before it is counted. */
  lemma LadderBump(c: Cache, n: nat, f: int, j: nat)
    requires Levels(c.freq, n, f, j) && j < n
    ensures j in c.freq
    ensures var b := Bumped(c, j); Levels(b.freq, n, f, j + 1) && b.total == c.total && b.maxAverage == c.maxAverage
  {
    BumpedLevels(c.freq, n, f, j);
  }

  lemma BumpedLevels(freq: map<Key, int>, n: nat, f: int, j: nat)
    requires Levels(freq, n, f, j) && j < n
    ensures j in freq && Levels(freq[j := freq[j] + 1], n, f, j + 1)
  {
    assert j in freq && freq[j] == f;
    LevelsClimb(freq, freq[j := f + 1], n, f, j);
  }

  lemma LadderOverflowsIff(b: Cache, n: nat, f: int, j: nat)
    requires j < n && f >= 1 && HasKeysBelow(b.freq, n) && b.total == n * f + j
    ensures Overflows(b) <==> (if j + 1 < n then f else f + 1) > b.maxAverage
  {
    LadderAverage(n, f, j);
    assert |b.freq| == |b.freq.Keys|;
  }

  lemma LadderCounts(c: Cache, n: nat, f: int, j: nat)
    requires Ladder(c, n, f, j) && j < n
    requires (if j + 1 < n then f else f + 1) <= c.maxAverage || Half(c.maxAverage) == 0
    ensures var w := Touched(c, j, Below(n)); Levels(w.freq, n, f, j + 1) && w.total == n * f + j + 1
  {
    var b := Bumped(c, j);
    LadderBump(c, n, f, j);
    BumpedFiled(c, j);
    LadderOverflowsIff(b, n, f, j);
    BelowIsTraversal(b, n);
    CountedUntouched(b, Below(n));
    CountedTotal(b, Below(n));
  }

  lemma TopIsOutOfReach(c: Cache, n: nat, f: int, j: nat)
    requires Ladder(c, n, f, j) && j + 1 == n && f + 1 > c.maxAverage && AgedFreq(c, f + 1) >= NONE
    ensures var w := Touched(c, j, Below(n)); w.minFreq == 1 && w.List(1) == []
  {
    var b := Bumped(c, j);
    LadderBump(c, n, f, j);
    BumpedFiled(c, j);
    LadderOverflowsIff(b, n, f, j);
    BelowIsTraversal(b, n);
    CountedIs(b, Below(n));
    var t := b.(total := b.total + 1);
    AgedIs(t, Below(n));
    forall x: Key | x in b.freq ensures Aged(t, Below(n)).freq[x] >= NONE {
      assert b.freq[x] == f + 1;
    }
    HighIsOutOfReach(Aged(t, Below(n)));
  }

  /** `updateMinFreq` sees nothing when all frequencies are out of its reach. */
  lemma HighIsOutOfReach(a: Cache)
    requires Filed(a.freq, a.lists) && forall x: Key :: x in a.freq ==> a.freq[x] >= NONE
    ensures WithMin(a).minFreq == 1 && a.List(1) == []
  {
    assert IsMin(a.lists, WithMin(a).minFreq);
    forall f | f in a.lists && a.lists[f] != [] ensures f >= NONE {
      assert a.lists[f][0] in ListIn(a.lists, f);
    }
  }

  lemma LadderClimbs(c: Cache, n: nat, f: int, j: nat)
    requires Ladder(c, n, f, j) && j < n
    requires (if j + 1 < n then f else f + 1) <= c.maxAverage || Half(c.maxAverage) == 0
    ensures Ladder(Touched(c, j, Below(n)), n, f, j + 1)
  {
    BelowIsTraversal(c, n);
    TouchedIsTame(c, j, Below(n));
    LadderCounts(c, n, f, j);
  }

  /** The last key climbs to a level whose aged frequency is out of reach. */
  lemma LadderSticks(c: Cache, n: nat, f: int, j: nat)
    requires Ladder(c, n, f, j) && j + 1 == n == c.capacity && f + 1 > c.maxAverage && AgedFreq(c, f + 1) >= NONE
    ensures Stuck(Touched(c, j, Below(n))) && HasKeysBelow(Touched(c, j, Below(n)).freq, n)
  {
    var w := Touched(c, j, Below(n));
    BelowIsTraversal(c, n);
    TouchedIsTame(c, j, Below(n));
    CountedKeepsSettings(Bumped(c, j), Below(n));
    SameKeys(c.freq, w.freq, n);
    TopIsOutOfReach(c, n, f, j);
  }

  // -------------------------------------------------------------------- filling

  /** Key n, stored in a cache that holds the keys below n. */
  lemma StoredBelow(c: Cache, n: nat)
    requires Tame(c) && HasKeysBelow(c.freq, n)
    ensures var s := Stored(c, n, 0);
            && Filed(s.freq, s.lists) && HasKeysBelow(s.freq, n + 1) && Traversal(s, Below(n + 1))
            && s.value.Keys == s.freq.Keys && s.minFreq >= 1 && 1 in s.lists
  {
    OneMoreBelow(c.freq, n);
    BelowIsTraversal(Stored(c, n, 0), n + 1);
    StoredIsTame(c, n, 0);
  }

  lemma OneMoreBelow(freq: map<Key, int>, n: nat)
    requires HasKeysBelow(freq, n)
    ensures HasKeysBelow(freq[n := 1], n + 1)
  {
    var g := freq[n := 1];
    assert n !in freq && g.Keys == freq.Keys + {n};
    OneMore(freq, g, n);
    forall k: Key ensures k in g <==> k < n + 1 {
      assert k in g <==> k in freq || k == n;
    }
  }

  /** The cache after counting key n. */
  ghost function Filled(c: Cache, n: nat): Cache {
    Counted(Stored(c, n, 0), Below(n + 1)).(minFreq := 1)
  }

  lemma FilledIsTame(c: Cache, n: nat)
    requires Tame(c) && HasKeysBelow(c.freq, n)
    ensures Tame(Filled(c, n)) && HasKeysBelow(Filled(c, n).freq, n + 1) && Filled(c, n).minFreq == 1
  {
    StoredBelow(c, n);
    CountedIsTame(Stored(c, n, 0), Below(n + 1));
    SameKeys(Stored(c, n, 0).freq, Filled(c, n).freq, n + 1);
  }

  lemma SameKeys(f: map<Key, int>, g: map<Key, int>, n: nat)
    requires HasKeysBelow(f, n) && f.Keys == g.Keys
    ensures HasKeysBelow(g, n)
  {
    assert |g| == |g.Keys| && |f| == |f.Keys|;
    forall k: Key ensures k in g <==> k < n {
      assert k in g.Keys <==> k in f.Keys;
    }
  }

  lemma FilledIsPut(c: Cache, n: nat)
    requires Tame(c) && HasKeysBelow(c.freq, n) && n < c.capacity
    ensures Enabled(c, PutKey(n, 0, Below(n + 1))) && Filled(c, n) == Apply(c, PutKey(n, 0, Below(n + 1)))
  {
    StoredBelow(c, n);
    assert Room(c) == c;
    FilledIsInserted(c, n);
  }

  lemma FilledIsInserted(c: Cache, n: nat)
    requires Tame(c) && HasKeysBelow(c.freq, n) && Room(c) == c
    ensures Filled(c, n) == Inserted(c, n, 0, Below(n + 1))
  {
    var s := Stored(c, n, 0);
    StoredBelow(c, n);
    CountedIsTame(s, Below(n + 1));
    InsertedIs(c, n, 0, Below(n + 1), Counted(s, Below(n + 1)));
  }

  /** Every key at level 1, or no key at all. */
  ghost predicate Filling(c: Cache, n: nat) {
    && Tame(c) && HasKeysBelow(c.freq, n) && c.total == n
    && forall k: Key {:trigger c.freq[k]} :: k in c.freq ==> c.freq[k] == 1
  }

  lemma FillsLevelOne(c: Cache, n: nat)
    requires Filling(c, n) && c.maxAverage >= -1
    ensures Filling(Filled(c, n), n + 1)
  {
    var s := Stored(c, n, 0);
    StoredBelow(c, n);
    FillingAverage(s, n);
    CountedUntouched(s, Below(n + 1));
    FilledIsTame(c, n);
    FilledTotal(c, n);
  }

  lemma FillingAverage(s: Cache, n: nat)
    requires HasKeysBelow(s.freq, n + 1) && s.total == n
    ensures Overflows(s) <==> s.maxAverage < 1
  {
    Quotient(n + 1, n + 1, 1, 0);
    assert |s.freq| == |s.freq.Keys|;
  }

  /** Under a limit below -1 every put raises all frequencies above 1. */
  ghost predicate Raised(c: Cache, n: nat) {
    && Tame(c) && HasKeysBelow(c.freq, n) && c.total == n && (n > 0 ==> c.minFreq == 1)
    && forall k: Key {:trigger c.freq[k]} :: k in c.freq ==> c.freq[k] >= 2
  }

  lemma FillsAndRaises(c: Cache, n: nat)
    requires Raised(c, n) && c.maxAverage <= -2
    ensures Raised(Filled(c, n), n + 1)
  {
    FilledIsTame(c, n);
    FilledTotal(c, n);
    FilledIsRaised(c, n);
  }

  lemma FilledTotal(c: Cache, n: nat)
    requires Tame(c) && HasKeysBelow(c.freq, n)
    ensures Filled(c, n).total == c.total + 1
  {
    StoredBelow(c, n);
    CountedTotal(Stored(c, n, 0), Below(n + 1));
  }

  lemma FilledIsRaised(c: Cache, n: nat)
    requires Tame(c) && HasKeysBelow(c.freq, n) && c.total == n && c.maxAverage <= -2
    ensures forall k: Key {:trigger Filled(c, n).freq[k]} :: k in Filled(c, n).freq ==> Filled(c, n).freq[k] >= 2
  {
    var s := Stored(c, n, 0);
    StoredBelow(c, n);
    FillingAverage(s, n);
    CountedKeys(s, Below(n + 1));
    forall k: Key | k in s.freq ensures Filled(c, n).freq[k] >= 2 {
      RaisedFreq(s, Below(n + 1), k);
    }
  }

  /** Half a limit below -1 is negative, so aging adds to the frequencies. */
  lemma RaisedFreq(s: Cache, order: seq<Key>, k: Key)
    requires Filed(s.freq, s.lists) && Traversal(s, order) && Overflows(s) && s.maxAverage <= -2 && k in s.freq
    ensures k in Counted(s, order).freq && Counted(s, order).freq[k] >= 2
  {
    assert s.freq[k] >= 1;
    CountedFreq(s, order, k);
  }

  lemma RaisedIsStuck(c: Cache)
    requires Raised(c, c.capacity) && c.capacity > 0
    ensures Stuck(c)
  {
    FirstIsFiled(c.freq, c.lists, 1);
  }

  lemma FirstIsFiled(freq: map<Key, int>, lists: map<int, seq<Key>>, f: int)
    requires Filed(freq, lists)
    ensures ListIn(lists, f) == [] || exists k: Key :: k in freq && freq[k] == f
  {
    if ListIn(lists, f) != [] {
      assert ListIn(lists, f)[0] in ListIn(lists, f);
    }
  }

  // ---------------------------------------------------------------------- runs

  /** A run with the given settings ends in state c. */
  ghost predicate Reaches(states: seq<Cache>, events: seq<Event>, capacity: nat, m: int, c: Cache) {
    Run(states, events, capacity, m) && states[|events|] == c && c.capacity == capacity && c.maxAverage == m
  }

  lemma ReachesNext(states: seq<Cache>, events: seq<Event>, capacity: nat, m: int, c: Cache, e: Event)
      returns (ss: seq<Cache>, es: seq<Event>)
    requires Reaches(states, events, capacity, m, c) && Enabled(c, e)
    ensures Reaches(ss, es, capacity, m, Apply(c, e))
  {
    var w := Apply(c, e);
    StepKeepsSettings(c, e);
    ExtendedRun(states, events, capacity, m, e, w);
    ss, es := states + [w], events + [e];
  }

  lemma PutNext(states: seq<Cache>, events: seq<Event>, capacity: nat, m: int, c: Cache, n: nat)
      returns (ss: seq<Cache>, es: seq<Event>)
    requires Reaches(states, events, capacity, m, c) && Tame(c) && HasKeysBelow(c.freq, n) && n < capacity
    ensures Reaches(ss, es, capacity, m, Filled(c, n))
  {
    FilledIsPut(c, n);
    ss, es := ReachesNext(states, events, capacity, m, c, PutKey(n, 0, Below(n + 1)));
  }

  lemma GetNext(states: seq<Cache>, events: seq<Event>, capacity: nat, m: int, c: Cache, n: nat, k: Key)
      returns (ss: seq<Cache>, es: seq<Event>)
    requires Reaches(states, events, capacity, m, c) && HasKeysBelow(c.freq, n) && k in c.freq
    ensures Reaches(ss, es, capacity, m, Touched(c, k, Below(n)))
  {
    BelowIsTraversal(c, n);
    ss, es := ReachesNext(states, events, capacity, m, c, GetKey(k, Below(n)));
  }

  lemma StartIsEmpty(capacity: nat, m: int)
    ensures Filling(Empty(capacity, m), 0) && Raised(Empty(capacity, m), 0)
    ensures Reaches([Empty(capacity, m)], [], capacity, m, Empty(capacity, m))
  {
    assert |Empty(capacity, m).freq| == 0;
  }

  lemma {:induction false} FillingRun(capacity: nat, m: int, n: nat) returns (ss: seq<Cache>, es: seq<Event>, w: Cache)
    requires n <= capacity
    ensures Reaches(ss, es, capacity, m, w) && (m >= -1 ==> Filling(w, n)) && (m <= -2 ==> Raised(w, n))
  {
    if n == 0 {
      StartIsEmpty(capacity, m);
      ss, es, w := [Empty(capacity, m)], [], Empty(capacity, m);
    } else {
      ss, es, w := FillingRun(capacity, m, n - 1);
      ss, es := PutNext(ss, es, capacity, m, w, n - 1);
      if m >= -1 { FillsLevelOne(w, n - 1); } else { FillsAndRaises(w, n - 1); }
      w := Filled(w, n - 1);
    }
  }

  /** All keys reach level f, and the first j of them the next one, in rounds. */
  lemma {:induction false} ClimbingRun(n: nat, m: int, f: nat, j: nat) returns (ss: seq<Cache>, es: seq<Event>, w: Cache)
    requires n > 0 && m >= -1 && f >= 1 && j <= n
    requires Half(m) == 0 || f < m || (f == m && j < n)
    ensures Reaches(ss, es, n, m, w) && Ladder(w, n, f, j)
    decreases f, j
  {
    if j > 0 {
      ss, es, w := ClimbingRun(n, m, f, j - 1);
      ss, es, w := ClimbNext(ss, es, n, m, w, f, j - 1);
    } else if f > 1 {
      ss, es, w := ClimbingRun(n, m, f - 1, n);
      NextLevel(w, n, f - 1);
    } else {
      ss, es, w := FillingRun(n, m, n);
      FirstLevel(w, n);
    }
  }

  lemma FirstLevel(c: Cache, n: nat)
    requires Filling(c, n) && n > 0
    ensures Ladder(c, n, 1, 0)
  {
  }

  lemma ClimbNext(states: seq<Cache>, events: seq<Event>, n: nat, m: int, c: Cache, f: nat, j: nat)
      returns (ss: seq<Cache>, es: seq<Event>, w: Cache)
    requires Reaches(states, events, n, m, c) && Ladder(c, n, f, j) && j < n
    requires (if j + 1 < n then f else f + 1) <= m || Half(m) == 0
    ensures Reaches(ss, es, n, m, w) && Ladder(w, n, f, j + 1)
  {
    w := Touched(c, j, Below(n));
    ss, es := GetNext(states, events, n, m, c, n, j);
    LadderClimbs(c, n, f, j);
  }

  /** The level from which the aged frequency is out of reach. */
  function TopLevel(m: int): nat { if m <= 1 then NONE - 1 else m }

  lemma StuckRun(capacity: nat, m: int) returns (ss: seq<Cache>, es: seq<Event>, w: Cache)
    requires capacity >= 1 && !GoodLimit(m)
    ensures Reaches(ss, es, capacity, m, w) && Stuck(w) && HasKeysBelow(w.freq, capacity)
  {
    if m <= -2 {
      ss, es, w := FillingRun(capacity, m, capacity);
      RaisedIsStuck(w);
    } else {
      var j := capacity - 1;
      ss, es, w := ClimbingRun(capacity, m, TopLevel(m), j);
      LadderSticks(w, capacity, TopLevel(m), j);
      ss, es := GetNext(ss, es, capacity, m, w, capacity, j);
      w := Touched(w, j, Below(capacity));
    }
  }

  /** One more key can be put into a stuck cache, and makes it too large. */
  lemma StuckOverfills(c: Cache, n: nat)
    requires Stuck(c) && HasKeysBelow(c.freq, n)
    ensures Enabled(c, PutKey(n, 0, Below(n + 1))) && |Apply(c, PutKey(n, 0, Below(n + 1))).freq| == c.capacity + 1
  {
    OneMoreBelow(c.freq, n);
    BelowIsTraversal(Stored(Room(c), n, 0), n + 1);
    FullCacheOverfillsIff(c, n, 0, Below(n + 1));
  }

  /** Outside 2..250 some run ends with one entry too many, whatever the capacity. */
  lemma OverfilledRun(capacity: nat, m: int) returns (ss: seq<Cache>, es: seq<Event>, w: Cache)
    requires capacity >= 1 && !GoodLimit(m)
    ensures Reaches(ss, es, capacity, m, w) && |w.freq| == capacity + 1
  {
    ss, es, w := StuckRun(capacity, m);
    StuckOverfills(w, capacity);
    var e := PutKey(capacity, 0, Below(capacity + 1));
    ss, es := ReachesNext(ss, es, capacity, m, w, e);
    w := Apply(w, e);
  }

  /** The capacity is respected after every run if and only if the limit on the average
      lies between 2 and 250. */
  lemma CapacityIsRespectedIff(capacity: nat, m: int)
    requires capacity >= 1
    ensures GoodLimit(m) <==>
            forall states: seq<Cache>, events, i :: Run(states, events, capacity, m) && 0 <= i < |states| ==> |states[i].freq| <= capacity
  {
    if GoodLimit(m) {
      forall states: seq<Cache>, events, i | Run(states, events, capacity, m) && 0 <= i < |states| ensures |states[i].freq| <= capacity {
        RunIsExact(states, events, capacity, m, i);
      }
    } else {
      var states, events, w := OverfilledRun(capacity, m);
      assert |states[|events|].freq| > capacity;
    }
  }
}
