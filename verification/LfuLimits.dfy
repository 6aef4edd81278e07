/**
 The limits on the average outside 2..250 do not work: a run of one put and some
 gets of the same key leaves a cached minimum that is not the true one.
 */
module LfuLimits {
  import opened LfuCache

  /** One key, accessed f times so far, with an exact cached minimum. */
  ghost predicate Single(c: Cache, k: Key, f: int) {
    && c.freq == map[k := f] && f >= 1 && Filed(c.freq, c.lists)
    && c.minFreq == f && c.total == f && c.value.Keys == {k}
  }

  ghost predicate Wrong(c: Cache) {
    c.freq.Keys != {} && !Minimum(c.freq, c.minFreq)
  }

  lemma SingleTraversal(c: Cache, k: Key, f: int)
    requires c.freq == map[k := f] && c.total >= -1
    ensures Traversal(c, [k]) && |c.freq| == 1 && (Overflows(c) <==> c.total + 1 > c.maxAverage)
  {
  }

  lemma FirstIsMember(s: seq<Key>)
    ensures s == [] || s[0] in s
  {
  }

  /** The key moves up, and the cached minimum with it. */
  lemma SingleBumped(c: Cache, k: Key, f: int)
    requires Single(c, k, f)
    ensures var b := Bumped(c, k);
            && b.freq == map[k := f + 1] && Filed(b.freq, b.lists) && b.minFreq == f + 1
            && b.total == c.total && b.maxAverage == c.maxAverage && b.capacity == c.capacity && b.value == c.value
  {
    BumpedFields(c, k);
    MovedFiled(c.freq, c.lists, k, f + 1);
    var b := Bumped(c, k);
    assert b.freq == map[k := f + 1];
    FirstIsMember(ListIn(b.lists, f));
  }

  lemma SingleAged(c: Cache, k: Key, f: int)
    requires c.freq == map[k := f] && f >= 1 && Filed(c.freq, c.lists)
    ensures var a := WithMin(Aged(c, [k])); var g := AgedFreq(c, f);
            && a.freq == map[k := g] && Filed(a.freq, a.lists) && a.minFreq == (if g < NONE then g else 1)
            && a.total == c.total && a.maxAverage == c.maxAverage && a.capacity == c.capacity && a.value == c.value
  {
    AgedIs(c, [k]);
    var a, g := Aged(c, [k]), AgedFreq(c, f);
    assert a.freq == map[k := g];
    assert a.freq[k] == g;
    assert Minimum(a.freq, g);
    MinIsExactIff(a, g);
    if g < NONE { MinimumUnique(a.freq, g, WithMin(a).minFreq); }
  }

  /** Another access, when it does not bring the frequency to NONE after aging. */
  lemma SingleStep(c: Cache, k: Key, f: int)
    requires Single(c, k, f)
    ensures var w := Get(c, k, [k]);
            && Enabled(c, GetKey(k, [k])) && w.maxAverage == c.maxAverage
            && (f + 1 <= c.maxAverage ==> Single(w, k, f + 1))
            && (f + 1 > c.maxAverage && f + 1 - Half(c.maxAverage) >= NONE ==> Wrong(w))
            && (f + 1 > c.maxAverage && Half(c.maxAverage) == 0 && f + 1 < NONE ==> Single(w, k, f + 1))
  {
    SingleBumped(c, k, f);
    SingleTraversal(c, k, f);
    SingleCounted(Bumped(c, k), k, f + 1);
    var w := Get(c, k, [k]);
    assert w == Counted(Bumped(c, k), [k]);
    assert k in w.freq && w.freq[k] >= 1;
  }

  /** The access is counted: nothing changes within the limit, the key ages above it. */
  lemma SingleCounted(b: Cache, k: Key, f: int)
    requires b.freq == map[k := f] && f >= 1 && Filed(b.freq, b.lists) && b.total == f - 1
    ensures var w, g := Counted(b, [k]), if f <= b.maxAverage then f else AgedFreq(b, f);
            && w.freq == map[k := g] && Filed(w.freq, w.lists) && w.total == f && w.value == b.value
            && w.minFreq == (if f <= b.maxAverage then b.minFreq else if g < NONE then g else 1)
            && w.maxAverage == b.maxAverage && w.capacity == b.capacity
  {
    SingleTraversal(b, k, f);
    CountedIs(b, [k]);
    if Overflows(b) {
      SingleAged(b.(total := b.total + 1), k, f);
    }
  }

  /** The first put. */
  lemma FirstPut(capacity: nat, m: int, k: Key, v: Value)
    requires capacity >= 1
    ensures var c := Empty(capacity, m); var w := Put(c, k, v, [k]);
            && Enabled(c, PutKey(k, v, [k])) && w.maxAverage == m
            && (-1 <= m ==> Single(w, k, 1)) && (m <= -2 ==> Wrong(w))
  {
    var c := Empty(capacity, m);
    assert |c.freq| == 0;
    var s := Stored(c, k, v);
    FirstStored(capacity, m, k, v);
    SingleTraversal(s, k, 1);
    SingleCounted(s, k, 1);
    var w := Counted(s, [k]);
    assert k in w.freq && w.freq[k] >= 1;
    InsertedIs(c, k, v, [k], w);
  }

  lemma FirstStored(capacity: nat, m: int, k: Key, v: Value)
    ensures var s := Stored(Empty(capacity, m), k, v);
            s.freq == map[k := 1] && Filed(s.freq, s.lists) && s.value.Keys == {k}
  {
    var c := Empty(capacity, m);
    assert Filed(c.freq, c.lists);
    StoredFiled(c.freq, c.lists, k);
  }

  /** A put and n gets of one key, while every state is still exact. */
  lemma {:induction false} GrowingRun(capacity: nat, m: int, k: Key, n: nat) returns (states: seq<Cache>, events: seq<Event>)
    requires capacity >= 1 && -1 <= m && (n + 1 <= m || (m <= 1 && n + 1 < NONE))
    ensures Run(states, events, capacity, m) && Single(states[|states| - 1], k, n + 1)
    ensures states[|states| - 1].maxAverage == m
  {
    if n == 0 {
      states, events := FirstRun(capacity, m, k);
    } else {
      states, events := GrowingRun(capacity, m, k, n - 1);
      var last := states[|states| - 1];
      SingleStep(last, k, n);
      states, events := Extended(states, events, capacity, m, GetKey(k, [k]));
    }
  }

  /** The run of one put. */
  lemma FirstRun(capacity: nat, m: int, k: Key) returns (states: seq<Cache>, events: seq<Event>)
    requires capacity >= 1
    ensures Run(states, events, capacity, m)
    ensures var w := states[|states| - 1]; w.maxAverage == m && (-1 <= m ==> Single(w, k, 1)) && (m <= -2 ==> Wrong(w))
  {
    FirstPut(capacity, m, k, 0);
    states, events := Extended([Empty(capacity, m)], [], capacity, m, PutKey(k, 0, [k]));
  }

  lemma Extended(states: seq<Cache>, events: seq<Event>, capacity: nat, m: int, e: Event)
      returns (states': seq<Cache>, events': seq<Event>)
    requires Run(states, events, capacity, m) && Enabled(states[|states| - 1], e)
    ensures Run(states', events', capacity, m) && states'[|states'| - 1] == Apply(states[|states| - 1], e)
  {
    var w := Apply(states[|states| - 1], e);
    ExtendedRun(states, events, capacity, m, e, w);
    states', events' := states + [w], events + [e];
  }

  /** Outside 2..250 some run ends with a wrong cached minimum, whatever the capacity. */
  lemma BadLimitFails(capacity: nat, m: int, k: Key) returns (states: seq<Cache>, events: seq<Event>)
    requires capacity >= 1 && !GoodLimit(m)
    ensures Run(states, events, capacity, m) && Wrong(states[|states| - 1])
  {
    if m <= -2 {
      states, events := FirstRun(capacity, m, k);
    } else {
      var n := if m <= 1 then NONE - 2 else m - 1;
      states, events := GrowingRun(capacity, m, k, n);
      SingleStep(states[|states| - 1], k, n + 1);
      states, events := Extended(states, events, capacity, m, GetKey(k, [k]));
    }
  }

  /** The cached minimum is right after every run if and only if the limit on the
      average lies between 2 and 250. */
  lemma MinimumIsTrustedIff(capacity: nat, m: int)
    requires capacity >= 1
    ensures GoodLimit(m) <==>
            forall states, events, i :: Run(states, events, capacity, m) && 0 <= i < |states| ==> !Wrong(states[i])
  {
    if GoodLimit(m) {
      forall states, events, i | Run(states, events, capacity, m) && 0 <= i < |states| ensures !Wrong(states[i]) {
        RunIsExact(states, events, capacity, m, i);
      }
    } else {
      var states, events := BadLimitFails(capacity, m, 0);
      assert Wrong(states[|states| - 1]);
    }
  }
}
