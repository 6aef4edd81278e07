/**
 Every step of every thread keeps the ownership invariant of the memory pool.
 */
module PoolSafety {
  import opened Sequences
  import opened FreeLists
  import opened SizeClasses
  import opened PoolOwnership

  // ------------------------------------------------------- moving blocks around

  /** Blocks `moved` leave list p, where `left` remains, and join list q. */
  lemma MoveKeepsOwned(lists: map<Place, seq<Addr>>, owner: map<Addr, Owner>,
                       p: Place, q: Place, moved: seq<Addr>, left: seq<Addr>, joined: seq<Addr>)
    requires Owned(lists, owner) && p != q
    requires NoDup(left) && NoDup(joined)
    requires forall a :: a in moved ==> a !in left
    requires forall a :: a in ListIn(lists, p) <==> a in moved || a in left
    requires forall a :: a in joined <==> a in moved || a in ListIn(lists, q)
    ensures Owned(lists[p := left][q := joined], Rehome(owner, moved, In(q)))
  {
    var lists', owner' := lists[p := left][q := joined], Rehome(owner, moved, In(q));
    forall r, a | a in ListIn(lists', r) ensures a in owner' && owner'[a] == In(r) {
      if r == p || (r == q && a in moved) {
        assert a in ListIn(lists, p);
      } else {
        assert a in ListIn(lists, r);
        assert a in moved ==> a in ListIn(lists, p);
      }
    }
    forall a | a in owner' && owner'[a].In? ensures a in ListIn(lists', owner'[a].place) {
      if a !in moved {
        assert a in ListIn(lists, owner[a].place);
      }
    }
    assert forall r :: NoDup(ListIn(lists, r)) ==> r != p && r != q ==> NoDup(ListIn(lists', r));
  }

  /** Blocks `moved` leave list p for the user, or are lost. */
  lemma TakeKeepsOwned(lists: map<Place, seq<Addr>>, owner: map<Addr, Owner>,
                       p: Place, moved: seq<Addr>, left: seq<Addr>, o: Owner)
    requires Owned(lists, owner) && !o.In?
    requires NoDup(left)
    requires forall a :: a in moved ==> a !in left
    requires forall a :: a in ListIn(lists, p) <==> a in moved || a in left
    ensures Owned(lists[p := left], Rehome(owner, moved, o))
  {
    var lists', owner' := lists[p := left], Rehome(owner, moved, o);
    forall r, a | a in ListIn(lists', r) ensures a in owner' && owner'[a] == In(r) {
      assert a in ListIn(lists, r);
      assert a in moved ==> a in ListIn(lists, p);
    }
    forall a | a in owner' && owner'[a].In? ensures a in ListIn(lists', owner'[a].place) {
      assert a in ListIn(lists, owner[a].place);
    }
    assert forall r :: NoDup(ListIn(lists, r)) ==> r != p ==> NoDup(ListIn(lists', r));
  }

  /** A block of the user joins list p. */
  lemma PutKeepsOwned(lists: map<Place, seq<Addr>>, owner: map<Addr, Owner>, p: Place, a: Addr)
    requires Owned(lists, owner) && a in owner && owner[a] == User
    ensures Owned(lists[p := [a] + ListIn(lists, p)], Rehome(owner, [a], In(p)))
  {
    var lists', owner' := lists[p := [a] + ListIn(lists, p)], Rehome(owner, [a], In(p));
    assert a !in ListIn(lists, p);
    forall r, b | b in ListIn(lists', r) ensures b in owner' && owner'[b] == In(r) {
      if b != a {
        assert b in ListIn(lists, r);
      } else {
        assert b !in ListIn(lists, r);
      }
    }
    forall b | b in owner' && owner'[b].In? ensures b in ListIn(lists', owner'[b].place) {
      if b != a {
        assert b in ListIn(lists, owner[b].place);
      }
    }
    assert forall r :: NoDup(ListIn(lists, r)) ==> NoDup(ListIn(lists', r));
  }

  lemma SameListKeepsOwned(lists: map<Place, seq<Addr>>, owner: map<Addr, Owner>, p: Place)
    requires Owned(lists, owner)
    ensures Owned(lists[p := ListIn(lists, p)], owner)
  {
    var lists' := lists[p := ListIn(lists, p)];
    assert forall r :: ListIn(lists', r) == ListIn(lists, r);
    forall r, a | a in ListIn(lists', r) ensures a in owner && owner[a] == In(r) {
      assert a in ListIn(lists, r);
    }
  }

  lemma SplitDisjoint(s: seq<Addr>, n: nat)
    requires NoDup(s) && n <= |s|
    ensures NoDup(s[..n]) && NoDup(s[n..])
    ensures forall a :: a in s[..n] ==> a !in s[n..]
    ensures forall a :: a in s <==> a in s[..n] || a in s[n..]
  {
  }

  lemma JoinNoDup(lists: map<Place, seq<Addr>>, owner: map<Addr, Owner>, p: Place, q: Place)
    requires Owned(lists, owner) && p != q
    ensures NoDup(ListIn(lists, p) + ListIn(lists, q))
    ensures forall a :: a in ListIn(lists, p) ==> a !in ListIn(lists, q)
  {
    var s, c := ListIn(lists, p), ListIn(lists, q);
    var u := s + c;
    forall i, j | 0 <= i < j < |u| ensures u[i] != u[j] {
      assert u[i] in (if i < |s| then s else c) && u[j] in (if j < |s| then s else c);
    }
  }

  // --------------------------------------------------------------- single steps

  /** Only thread t changed, and of its own lists and counters only those of class i. */
  ghost predicate Local(v: View, w: View, t: nat, i: nat) {
    && v.steps <= w.steps
    && (forall u: nat :: u != t ==> w.At(u) == v.At(u) && w.List(InFlight(u)) == v.List(InFlight(u)))
    && (forall u: nat, j: nat :: u != t || j != i ==>
          && w.List(Cached(u, j)) == v.List(Cached(u, j)) && w.Count(Cached(u, j)) == v.Count(Cached(u, j))
          && w.Failures(Cached(u, j)) == v.Failures(Cached(u, j)))
    && (forall j: nat :: j != i ==> !Missed(v, t, j) && !Missed(w, t, j))
  }

  ghost predicate Settled(v: View) {
    && (forall t: nat :: PhaseOk(v, t))
    && (forall t: nat, i: nat :: CountOk(v, t, i))
  }

  lemma LocalKeeps(v: View, w: View, t: nat, i: nat)
    requires Settled(v)
    requires Local(v, w, t, i) && PhaseOk(w, t) && CountOk(w, t, i)
    ensures Settled(w)
  {
    forall u: nat ensures PhaseOk(w, u) {
      if u != t {
        assert PhaseOk(v, u);
        assert forall j: nat :: w.List(Cached(u, j)) == v.List(Cached(u, j));
      }
    }
    forall u: nat, j: nat ensures CountOk(w, u, j) {
      if u != t || j != i {
        assert CountOk(v, u, j);
        assert u != t ==> Missed(w, u, j) == Missed(v, u, j);
      }
    }
  }

  /** Blocks only moved between lists whose class they have. */
  lemma ClassifiedKeeps(v: View, w: View, p: Place, q: Place)
    requires Classified(v) && w.class_ == v.class_ && w.owner.Keys == v.owner.Keys
    requires forall r :: r != p && r != q ==> w.List(r) == v.List(r) && (w.List(r) == [] || w.ClassOf(r) == v.ClassOf(r))
    requires forall a :: a in w.List(p) || a in w.List(q) ==> a in v.class_
    requires forall a :: a in w.List(p) ==> v.class_[a] == w.ClassOf(p)
    requires forall a :: a in w.List(q) ==> v.class_[a] == w.ClassOf(q)
    ensures Classified(w)
  {
  }

  lemma AllocKeeps(v: View, t: nat, size: nat)
    requires Invariant(v) && Enabled(v, Alloc(t, size))
    ensures Invariant(AllocStep(v, t, size))
  {
    AllocSettled(v, t, size);
    AllocOwned(v, t, size);
    AllocClassified(v, t, size);
  }

  lemma AllocClassified(v: View, t: nat, size: nat)
    requires Classified(v) && v.List(InFlight(t)) == []
    ensures Classified(AllocStep(v, t, size))
  {
    var w := AllocStep(v, t, size);
    forall q, a | a in w.List(q) ensures a in w.class_ && w.class_[a] == w.ClassOf(q) {
      assert a in v.List(q);
    }
  }

  lemma AllocOwned(v: View, t: nat, size: nat)
    requires Owned(v.lists, v.owner)
    ensures Owned(AllocStep(v, t, size).lists, AllocStep(v, t, size).owner)
  {
    var s := v.List(Cached(t, GetIndex(Requested(size))));
    if s != [] {
      SplitDisjoint(s, 1);
      TakeKeepsOwned(v.lists, v.owner, Cached(t, GetIndex(Requested(size))), s[..1], s[1..], User);
    }
  }

  lemma AllocSettled(v: View, t: nat, size: nat)
    requires Settled(v) && v.At(t).Idle? && size <= MAX_BYTES
    ensures Settled(AllocStep(v, t, size))
    ensures v.List(InFlight(t)) == []
  {
    RequestFitsItsClass(Requested(size));
    var i := GetIndex(Requested(size));
    AllocLocal(v, t, size);
    assert PhaseOk(v, t) && CountOk(v, t, i);
    LocalKeeps(v, AllocStep(v, t, size), t, i);
  }

  lemma AllocLocal(v: View, t: nat, size: nat)
    requires v.At(t).Idle?
    ensures Local(v, AllocStep(v, t, size), t, GetIndex(Requested(size)))
    ensures AllocStep(v, t, size).Failures(Cached(t, GetIndex(Requested(size)))) == v.Failures(Cached(t, GetIndex(Requested(size))))
  {
    var i := GetIndex(Requested(size));
    AllocFields(v, t, size);
    OwnUpdateIsLocal(v, AllocStep(v, t, size), t, i, v.Count(Cached(t, i)) - 1);
  }

  lemma AllocFields(v: View, t: nat, size: nat)
    ensures var w, i := AllocStep(v, t, size), GetIndex(Requested(size));
            && (w.lists == v.lists || w.lists == v.lists[Cached(t, i) := w.List(Cached(t, i))])
            && w.count == v.count[Cached(t, i) := v.Count(Cached(t, i)) - 1] && w.failed == v.failed
            && w.steps == v.steps + 1 && (w.phase == v.phase || w.phase == v.phase[t := Fetching(i)])
  {
  }

  lemma OwnUpdateIsLocal(v: View, w: View, t: nat, i: nat, c: int)
    requires w.lists == v.lists || w.lists == v.lists[Cached(t, i) := w.List(Cached(t, i))]
    requires w.count == v.count[Cached(t, i) := c] && w.failed == v.failed && w.steps == v.steps + 1
    requires v.At(t).Idle? && (w.phase == v.phase || w.phase == v.phase[t := Fetching(i)])
    ensures Local(v, w, t, i)
  {
  }

  lemma FetchSharedKeeps(v: View, t: nat, span: Addr)
    requires Invariant(v) && v.At(t).Fetching? && v.List(Shared(v.At(t).index)) != []
    ensures Invariant(FetchStep(v, t, span))
  {
    var i := v.At(t).index;
    var c := v.List(Shared(i));
    var n := Min(BatchNum(i), |c|);
    FetchSettled(v, t, span);
    SplitDisjoint(c, n);
    MoveKeepsOwned(v.lists, v.owner, Shared(i), InFlight(t), c[..n], c[n..], c[..n]);
    ClassifiedKeeps(v, FetchStep(v, t, span), Shared(i), InFlight(t));
  }

  /** Also covers the carving of a fresh span. */
  lemma FetchSettled(v: View, t: nat, span: Addr)
    requires Settled(v) && v.At(t).Fetching?
    ensures Settled(FetchStep(v, t, span))
    ensures v.List(InFlight(t)) == [] && v.At(t).index < FREE_LIST_SIZE
  {
    var i := v.At(t).index;
    BatchNumRange(i);
    assert PhaseOk(v, t) && CountOk(v, t, i);
    var x, y := FetchFields(v, t, span);
    var w := v.(lists := v.lists[Shared(i) := x][InFlight(t) := y], phase := v.phase[t := Fetched(i)], steps := v.steps + 1);
    ExchangeIsLocal(v, w, t, i, x, y);
    LocalKeeps(v, w, t, i);
    SameSettled(w, FetchStep(v, t, span));
  }

  lemma FetchFields(v: View, t: nat, span: Addr) returns (x: seq<Addr>, y: seq<Addr>)
    requires v.At(t).Fetching?
    ensures var i, w := v.At(t).index, FetchStep(v, t, span);
            && w.lists == v.lists[Shared(i) := x][InFlight(t) := y] && 1 <= |y| <= BatchNum(i)
            && w.phase == v.phase[t := Fetched(i)] && w.count == v.count && w.failed == v.failed && w.steps == v.steps + 1
  {
    x, y := FetchStep(v, t, span).List(Shared(v.At(t).index)), FetchStep(v, t, span).List(InFlight(t));
    BatchNumRange(v.At(t).index);
  }

  lemma SameSettled(v: View, w: View)
    requires Settled(v)
    requires w.lists == v.lists && w.phase == v.phase && w.count == v.count && w.failed == v.failed && w.steps == v.steps
    ensures Settled(w)
  {
    forall t: nat ensures PhaseOk(w, t) {
      assert PhaseOk(v, t);
    }
    forall t: nat, i: nat ensures CountOk(w, t, i) {
      assert CountOk(v, t, i);
    }
  }

  lemma ExchangeIsLocal(v: View, w: View, t: nat, i: nat, x: seq<Addr>, y: seq<Addr>)
    requires w.lists == v.lists[Shared(i) := x][InFlight(t) := y]
    requires w.count == v.count && w.failed == v.failed && w.phase == v.phase[t := Fetched(i)] && v.At(t) == Fetching(i)
    requires w.steps == v.steps + 1
    ensures Local(v, w, t, i)
  {
  }

  lemma FailKeeps(v: View, t: nat)
    requires Invariant(v) && v.At(t).Fetching?
    ensures Invariant(FailStep(v, t))
  {
    var i := v.At(t).index;
    var w := FailStep(v, t);
    assert PhaseOk(v, t) && CountOk(v, t, i);
    LocalKeeps(v, w, t, i);
    ClassifiedKeeps(v, w, InFlight(t), InFlight(t));
  }

  lemma FinishKeeps(v: View, t: nat)
    requires Invariant(v) && v.At(t).Fetched?
    ensures v.List(InFlight(t)) != []
    ensures Invariant(FinishStep(v, t))
  {
    var i := v.At(t).index;
    var p, q := InFlight(t), Cached(t, i);
    var s := v.List(p);
    assert PhaseOk(v, t);
    var w := FinishStep(v, t);
    FinishSettled(v, t);
    MoveKeepsOwned(v.lists, v.owner, p, q, s, [], s);
    var lists := v.lists[p := []][q := s];
    SplitDisjoint(s, 1);
    TakeKeepsOwned(lists, Rehome(v.owner, s, In(q)), q, s[..1], s[1..], User);
    assert lists[q := s[1..]] == w.lists;
    ClassifiedKeeps(v, w, p, q);
  }

  lemma FinishSettled(v: View, t: nat)
    requires Settled(v) && v.At(t).Fetched? && v.List(InFlight(t)) != []
    ensures Settled(FinishStep(v, t))
  {
    var i := v.At(t).index;
    BatchNumRange(i);
    assert PhaseOk(v, t) && CountOk(v, t, i);
    LocalKeeps(v, FinishStep(v, t), t, i);
  }

  lemma ReturnKeeps(v: View, t: nat)
    requires Invariant(v) && v.At(t).Returning?
    ensures Invariant(ReturnStep(v, t))
  {
    ReturnOwned(v, t);
    ReturnSettled(v, t);
    ClassifiedKeeps(v, ReturnStep(v, t), InFlight(t), Shared(v.At(t).index));
  }

  lemma ReturnSettled(v: View, t: nat)
    requires Settled(v) && v.At(t).Returning?
    ensures Settled(ReturnStep(v, t))
  {
    var i := v.At(t).index;
    assert PhaseOk(v, t) && CountOk(v, t, i);
    LocalKeeps(v, ReturnStep(v, t), t, i);
  }

  lemma ReturnOwned(v: View, t: nat)
    requires Owned(v.lists, v.owner) && v.At(t).Returning?
    ensures Owned(ReturnStep(v, t).lists, ReturnStep(v, t).owner)
    ensures forall a :: a in ReturnStep(v, t).List(Shared(v.At(t).index)) ==>
              a in v.List(InFlight(t)) || a in v.List(Shared(v.At(t).index))
  {
    var p, q := InFlight(t), Shared(v.At(t).index);
    var s, c, n := v.List(p), v.List(q), Reach(v, t);
    var front, back := s[..n], s[n..];
    SplitDisjoint(s, n);
    JoinNoDup(v.lists, v.owner, p, q);
    FrontNoDup(s, n, c);
    MoveKeepsOwned(v.lists, v.owner, p, q, front, back, front + c);
    var lists := v.lists[p := back][q := front + c];
    TakeKeepsOwned(lists, Rehome(v.owner, front, In(q)), p, back, [], Lost);
    assert lists[p := []] == v.lists[p := []][q := front + c];
  }

  lemma FrontNoDup(s: seq<Addr>, n: nat, c: seq<Addr>)
    requires NoDup(s + c) && n <= |s|
    ensures NoDup(s[..n] + c) && forall a :: a in s[..n] + c <==> a in s[..n] || a in c
  {
    var u, w := s + c, s[..n] + c;
    forall i, j | 0 <= i < j < |w| ensures w[i] != w[j] {
      assert w[i] == u[if i < n then i else i + |s| - n] && w[j] == u[if j < n then j else j + |s| - n];
    }
  }

  // ------------------------------------------------------------------ freeing

  lemma PushKeeps(v: View, t: nat, ptr: Addr, size: nat)
    requires Invariant(v) && Enabled(v, Free(t, ptr, size))
    ensures Invariant(PushStep(v, t, ptr, size))
  {
    var i := GetIndex(size);
    var p := Cached(t, i);
    var w := PushStep(v, t, ptr, size);
    PutKeepsOwned(v.lists, v.owner, p, ptr);
    assert PhaseOk(v, t);
    ClassifiedKeeps(v, w, p, InFlight(t));
    PushSettled(v, t, ptr, size);
  }

  lemma PushSettled(v: View, t: nat, ptr: Addr, size: nat)
    requires Settled(v) && v.At(t).Idle?
    ensures Settled(PushStep(v, t, ptr, size))
  {
    var i := GetIndex(size);
    assert PhaseOk(v, t) && CountOk(v, t, i);
    LocalKeeps(v, PushStep(v, t, ptr, size), t, i);
  }

  /** The size that freed the block is the block size of its class, or 0. */
  lemma SplitKeeps(w: View, t: nat, i: nat, z: nat)
    requires Invariant(w) && w.At(t).Idle? && i < FREE_LIST_SIZE && (z == Bytes(i) || z == 0)
    requires Splits(w, Cached(t, i)) && 64 * w.steps < WORD
    ensures Invariant(SplitStep(w, t, i, z))
  {
    var p, q := Cached(t, i), InFlight(t);
    var s, n := w.List(p), KeepNum(w.Stored(p));
    var x := SplitStep(w, t, i, z);
    SplitSettled(w, t, i, z);
    SplitDisjoint(s, n);
    if n < |s| {
      MoveKeepsOwned(w.lists, w.owner, p, q, s[n..], s[..n], s[n..]);
    } else {
      assert s[..n] == s;
      SameListKeepsOwned(w.lists, w.owner, p);
    }
    ClassifiedKeeps(w, x, p, q);
  }

  lemma SplitSettled(w: View, t: nat, i: nat, z: nat)
    requires Invariant(w) && w.At(t).Idle? && i < FREE_LIST_SIZE && (z == Bytes(i) || z == 0)
    requires Splits(w, Cached(t, i)) && 64 * w.steps < WORD
    ensures Settled(SplitStep(w, t, i, z))
    ensures w.List(InFlight(t)) == []
  {
    SplitCounterIsExact(w, t, i);
    CutSettles(w, t, i, z);
  }

  lemma CutSettles(w: View, t: nat, i: nat, z: nat)
    requires Settled(w) && w.At(t).Idle? && i < FREE_LIST_SIZE && Splits(w, Cached(t, i))
    requires w.Stored(Cached(t, i)) == w.Count(Cached(t, i))
    ensures Settled(SplitStep(w, t, i, z)) && w.List(InFlight(t)) == []
  {
    assert PhaseOk(w, t) && CountOk(w, t, i);
    CutIsLocal(w, t, i, z);
    LocalKeeps(w, SplitStep(w, t, i, z), t, i);
  }

  lemma CutIsLocal(w: View, t: nat, i: nat, z: nat)
    requires w.At(t).Idle? && Splits(w, Cached(t, i))
    ensures Local(w, SplitStep(w, t, i, z), t, i)
  {
  }

  /** A list is split only when its counter has not wrapped: a quarter of a wrapped
      counter is more than the address space has room for. */
  lemma SplitCounterIsExact(w: View, t: nat, i: nat)
    requires Invariant(w) && Splits(w, Cached(t, i)) && 64 * w.steps < WORD
    ensures w.Stored(Cached(t, i)) == w.Count(Cached(t, i))
    ensures |w.List(Cached(t, i))| * Bytes(i) <= ADDRESS_LIMIT + Bytes(i)
  {
    var p := Cached(t, i);
    ListFitsAddressSpace(w, p, i);
    ShortList(|w.List(p)|, Bytes(i));
    assert CountOk(w, t, i);
    NotWrapped(w.Count(p), w.steps, |w.List(p)|);
  }

  lemma NotWrapped(count: int, steps: nat, len: nat)
    requires 0 <= count + steps && count <= 64 * steps < WORD
    requires KeepNum(count % WORD) <= len <= ADDRESS_LIMIT / 8 + 1
    ensures count % WORD == count
  {
  }

  lemma ShortList(len: nat, z: nat)
    requires z >= 8 && len * z <= ADDRESS_LIMIT + z
    ensures len <= ADDRESS_LIMIT / 8 + 1
  {
  }

  /** A free with size 0 bounds the search for the end of the chain by 0. */
  lemma ZeroLimit(stored: nat)
    ensures ReturnLimit(stored, RoundUp(0)) == 0
  {
  }

  /** The bound handed to `returnRange` has not wrapped. When no fetch for the list has
      failed it is at least the length of the chain, since the counter is then not below
      the list. */
  lemma LimitReachesTheEnd(w: View, t: nat, i: nat)
    requires Invariant(w) && w.At(t).Idle? && i < FREE_LIST_SIZE && 64 * w.steps < WORD
    requires Splits(w, Cached(t, i))
    ensures var p := Cached(t, i);
            var n := KeepNum(w.Stored(p));
            && w.Stored(p) == w.Count(p) && ReturnLimit(w.Stored(p), Bytes(i)) == (w.Count(p) - n) * Bytes(i)
            && (w.Failures(p) == 0 ==> |w.List(p)| - n <= ReturnLimit(w.Stored(p), Bytes(i)))
  {
    var p := Cached(t, i);
    SplitCounterIsExact(w, t, i);
    assert CountOk(w, t, i);
    NoOverflow(w.Stored(p), |w.List(p)|, Bytes(i));
    LimitIsExact(w.Stored(p), Bytes(i));
  }

  lemma LimitIsExact(stored: nat, z: nat)
    requires KeepNum(stored) <= stored && (stored - KeepNum(stored)) * z < WORD
    ensures ReturnLimit(stored, z) == (stored - KeepNum(stored)) * z
  {
  }

  lemma NoOverflow(stored: nat, len: nat, z: nat)
    requires KeepNum(stored) <= len && KeepNum(stored) <= stored && 1 <= z <= MAX_BYTES
    requires len * z <= ADDRESS_LIMIT + z
    ensures (stored - KeepNum(stored)) * z < WORD
    ensures len <= stored ==> len - KeepNum(stored) <= (stored - KeepNum(stored)) * z
  {
    var r := stored - KeepNum(stored);
    assert r <= 3 * len + 3;
    MulMono(r, 3 * len + 3, z);
    assert (3 * len + 3) * z == 3 * (len * z) + 3 * z;
    MulMono(1, z, r);
  }

  /** Blocks of one list are disjoint, so there is room for only so many. */
  lemma ListFitsAddressSpace(v: View, p: Place, i: nat)
    requires Invariant(v) && v.ClassOf(p) == i
    ensures |v.List(p)| * Bytes(i) <= ADDRESS_LIMIT + Bytes(i)
  {
    var s: seq<Addr>, z := v.List(p), Bytes(i);
    forall k | 0 <= k < |s| ensures s[k] < ADDRESS_LIMIT {
      assert s[k] in s && s[k] in v.class_;
      assert InBlock(s[k], s[k], v.class_[s[k]]);
      assert s[k] in v.mapped;
    }
    forall j, k | 0 <= j < k < |s| ensures s[j] + z <= s[k] || s[k] + z <= s[j] {
      assert s[j] in s && s[k] in s;
      assert Apart(s[j], v.class_[s[j]], s[k], v.class_[s[k]]);
    }
    Pigeonhole(s, z, ADDRESS_LIMIT);
  }

  function Slots(s: seq<Addr>, z: nat): set<nat>
    requires z > 0
  {
    set k | 0 <= k < |s| :: s[k] / z
  }

  /** At most limit / z + 1 blocks of z bytes fit below `limit`. */
  lemma Pigeonhole(s: seq<Addr>, z: nat, limit: nat)
    requires z > 0
    requires forall k :: 0 <= k < |s| ==> s[k] < limit
    requires Spaced(s, z)
    ensures |s| * z <= limit + z
  {
    var n := limit / z + 1;
    SlotsAreDistinct(s, z);
    SlotsBelow(s, z, limit);
    SubsetSize(Slots(s, z), Below(n));
    MulMono(|s|, n, z);
    SlotsEnd(limit, z);
  }

  lemma SlotsEnd(limit: nat, z: nat)
    requires z > 0
    ensures (limit / z + 1) * z <= limit + z
  {
  }

  ghost predicate Spaced(s: seq<Addr>, z: nat) {
    forall j, k :: 0 <= j < k < |s| ==> s[j] + z <= s[k] || s[k] + z <= s[j]
  }

  lemma SlotsBelow(s: seq<Addr>, z: nat, limit: nat)
    requires z > 0
    requires forall k :: 0 <= k < |s| ==> s[k] < limit
    ensures Slots(s, z) <= Below(limit / z + 1)
  {
    forall x | x in Slots(s, z) ensures x in Below(limit / z + 1) {
      var k :| 0 <= k < |s| && x == s[k] / z;
      DivMono(s[k], limit, z);
    }
  }

  lemma {:induction false} SlotsAreDistinct(s: seq<Addr>, z: nat)
    requires z > 0 && Spaced(s, z)
    ensures |Slots(s, z)| == |s|
  {
    if s != [] {
      var n := |s| - 1;
      var t := s[..n];
      SlotsAreDistinct(t, z);
      LastSlotIsNew(s, z, t);
    }
  }

  lemma LastSlotIsNew(s: seq<Addr>, z: nat, t: seq<Addr>)
    requires z > 0 && Spaced(s, z) && s != [] && t == s[..|s| - 1]
    ensures |Slots(s, z)| == |Slots(t, z)| + 1
  {
    var n := |s| - 1;
    forall k | 0 <= k < n ensures t[k] / z != s[n] / z {
      if s[k] + z <= s[n] { DivStep(s[k], s[n], z); } else { DivStep(s[n], s[k], z); }
    }
    assert s[n] / z !in Slots(t, z);
    assert Slots(s, z) == Slots(t, z) + {s[n] / z};
  }

  lemma MulMono(a: nat, b: nat, z: nat)
    requires a <= b
    ensures a * z <= b * z
  {
  }

  lemma DivStep(a: nat, b: nat, z: nat)
    requires z > 0 && a + z <= b
    ensures a / z < b / z
  {
  }

  lemma DivMono(a: nat, b: nat, z: nat)
    requires z > 0 && a <= b
    ensures a / z <= b / z
  {
    if a + z <= b {
      DivStep(a, b, z);
    } else {
      assert a == a / z * z + a % z && b == b / z * z + b % z;
      if b / z < a / z {
        MulMono(b / z + 1, a / z, z);
        assert false;
      }
    }
  }

  function Below(n: nat): (s: set<nat>)
    ensures |s| == n
    ensures forall x: nat :: x in s <==> x < n
  {
    if n == 0 then {} else Below(n - 1) + {n - 1}
  }

  lemma {:induction false} SubsetSize(a: set<nat>, b: set<nat>)
    requires a <= b
    ensures |a| <= |b|
  {
    if a != {} {
      var x :| x in a;
      SubsetSize(a - {x}, b - {x});
    }
  }

  // ------------------------------------------------------------------ carving

  lemma BlockOrder(z: nat, j: nat, k: nat)
    requires j < k
    ensures j * z + z <= k * z
  {
    MulMono(j + 1, k, z);
    assert (j + 1) * z == j * z + z;
  }

  lemma BlocksNoDup(span: Addr, z: nat, from: nat, to: nat)
    requires from <= to && z > 0
    ensures NoDup(Blocks(span, z, from, to))
  {
  }

  lemma BlocksSplit(span: Addr, z: nat, n: nat, to: nat)
    requires n <= to && z > 0
    ensures Blocks(span, z, 0, n) + Blocks(span, z, n, to) == Blocks(span, z, 0, to)
    ensures forall a :: a in Blocks(span, z, 0, n) ==> a !in Blocks(span, z, n, to)
  {
  }

  /** Every carved block is aligned and lies inside the span. */
  lemma CarvedBlockInSpan(span: Addr, i: nat, a: Addr)
    requires span % PAGE_SIZE == 0
    requires a in Blocks(span, Bytes(i), 0, CarvedBlocks(i))
    ensures span <= a && a % ALIGNMENT == 0
    ensures a + Bytes(i) <= span + SpanPages(i) * PAGE_SIZE
    ensures forall w :: InBlock(w, a, i) ==> w in SpanWords(span, i)
  {
    var z, n := Bytes(i), CarvedBlocks(i);
    var k :| 0 <= k < n && a == span + k * z;
    MulMono(k + 1, n, z);
    assert (k + 1) * z == k * z + z;
    CarvedBlocksFitTheSpan(i);
    BlockAligned(span, i, k);
  }

  lemma BlockAligned(span: Addr, i: nat, k: nat)
    requires span % PAGE_SIZE == 0
    ensures (span + k * Bytes(i)) % ALIGNMENT == 0
  {
    var m := k * (i + 1);
    assert k * Bytes(i) == 8 * m;
    assert (4096 * (span / 4096) + 8 * m) % 8 == 0;
  }

  lemma {:induction false} CarvedBlocksApart(span: Addr, i: nat, a: Addr, b: Addr)
    requires a in Blocks(span, Bytes(i), 0, CarvedBlocks(i)) && b in Blocks(span, Bytes(i), 0, CarvedBlocks(i)) && a != b
    ensures Apart(a, i, b, i)
  {
    var z := Bytes(i);
    var j :| 0 <= j < CarvedBlocks(i) && a == span + j * z;
    var k :| 0 <= k < CarvedBlocks(i) && b == span + k * z;
    if j < k { BlockOrder(z, j, k); } else { BlockOrder(z, k, j); }
  }

  /** A carved block overlaps no block carved before, since the span was not mapped. */
  lemma CarvedBlockIsNew(v: View, span: Addr, i: nat, a: Addr, b: Addr)
    requires Placed(v.class_, v.mapped) && FreshSpan(v, span, i)
    requires a in Blocks(span, Bytes(i), 0, CarvedBlocks(i)) && b in v.class_
    ensures a != b && Apart(a, i, b, v.class_[b])
  {
    CarvedBlockInSpan(span, i, a);
    var w := Max(a, b);
    if !Apart(a, i, b, v.class_[b]) {
      assert InBlock(w, a, i) && InBlock(w, b, v.class_[b]);
      assert false;
    }
  }

  lemma CarvePlaced(v: View, span: Addr, i: nat, new_: seq<Addr>)
    requires Placed(v.class_, v.mapped) && FreshSpan(v, span, i)
    requires new_ == Blocks(span, Bytes(i), 0, CarvedBlocks(i))
    ensures Placed(v.class_ + (map a | a in new_ :: i), v.mapped + SpanWords(span, i))
    ensures forall a :: a in new_ ==> a !in v.class_
  {
    var class_ := v.class_ + (map a | a in new_ :: i);
    forall a | a in new_ ensures a !in v.class_ && a != NULL && a % ALIGNMENT == 0 {
      CarvedBlockInSpan(span, i, a);
      if a in v.class_ { CarvedBlockIsNew(v, span, i, a, a); }
    }
    forall a, w | a in class_ && InBlock(w, a, class_[a]) ensures w in v.mapped + SpanWords(span, i) {
      if a in new_ { CarvedBlockInSpan(span, i, a); }
    }
    forall a, b | a in class_ && b in class_ && a != b ensures Apart(a, class_[a], b, class_[b]) {
      if a in new_ && b in new_ {
        CarvedBlocksApart(span, i, a, b);
      } else if a in new_ {
        CarvedBlockIsNew(v, span, i, a, b);
      } else if b in new_ {
        CarvedBlockIsNew(v, span, i, b, a);
      }
    }
  }

  lemma CarveOwned(lists: map<Place, seq<Addr>>, owner: map<Addr, Owner>, p: Place, q: Place,
                   mine: seq<Addr>, rest: seq<Addr>)
    requires Owned(lists, owner) && p != q && ListIn(lists, p) == [] && ListIn(lists, q) == []
    requires NoDup(mine) && NoDup(rest)
    requires forall a :: a in mine ==> a !in owner && a !in rest
    requires forall a :: a in rest ==> a !in owner
    ensures Owned(lists[q := rest][p := mine],
                  owner + (map a | a in mine :: In(p)) + (map a | a in rest :: In(q)))
  {
    var lists' := lists[q := rest][p := mine];
    var owner' := owner + (map a | a in mine :: In(p)) + (map a | a in rest :: In(q));
    CarvedOwners(owner, p, q, mine, rest);
    forall r, a | a in ListIn(lists', r) ensures a in owner' && owner'[a] == In(r) {
      if r != p && r != q { assert a in ListIn(lists, r); }
    }
    forall a | a in owner' && owner'[a].In? ensures a in ListIn(lists', owner'[a].place) {
      if a !in mine && a !in rest { assert a in ListIn(lists, owner[a].place); }
    }
    forall r ensures NoDup(ListIn(lists', r)) {
      assert NoDup(ListIn(lists, r));
    }
  }

  lemma CarvedOwners(owner: map<Addr, Owner>, p: Place, q: Place, mine: seq<Addr>, rest: seq<Addr>)
    requires forall a :: a in mine ==> a !in owner && a !in rest
    requires forall a :: a in rest ==> a !in owner
    ensures var owner' := owner + (map a | a in mine :: In(p)) + (map a | a in rest :: In(q));
            forall a {:trigger owner'[a]} {:trigger a in owner'} ::
              && (a in owner' <==> a in owner || a in mine || a in rest)
              && (a in mine ==> owner'[a] == In(p)) && (a in rest ==> owner'[a] == In(q))
              && (a in owner ==> owner'[a] == owner[a])
  {
  }

  lemma CarveKeeps(v: View, t: nat, span: Addr)
    requires Invariant(v) && Enabled(v, Fetch(t, span)) && v.List(Shared(v.At(t).index)) == []
    ensures Invariant(FetchStep(v, t, span))
  {
    FetchSettled(v, t, span);
    CarveLists(v, t, span);
  }

  lemma CarveLists(v: View, t: nat, span: Addr)
    requires Owned(v.lists, v.owner) && Classified(v) && Placed(v.class_, v.mapped) && v.List(InFlight(t)) == []
    requires Enabled(v, Fetch(t, span)) && v.List(Shared(v.At(t).index)) == [] && v.At(t).index < FREE_LIST_SIZE
    ensures var w := FetchStep(v, t, span); Owned(w.lists, w.owner) && Classified(w) && Placed(w.class_, w.mapped)
  {
    var i := v.At(t).index;
    var z, n, total := Bytes(i), CarvedForThread(i), CarvedBlocks(i);
    var mine, rest := Blocks(span, z, 0, n), Blocks(span, z, n, total);
    BlocksSplit(span, z, n, total);
    BlocksNoDup(span, z, 0, n);
    BlocksNoDup(span, z, n, total);
    CarvePlaced(v, span, i, mine + rest);
    CarveOwned(v.lists, v.owner, InFlight(t), Shared(i), mine, rest);
    CarveFields(v, t, span);
    CarveClassified(v, FetchStep(v, t, span), t, i, mine, rest);
  }

  lemma CarveFields(v: View, t: nat, span: Addr)
    requires v.At(t).Fetching? && v.List(Shared(v.At(t).index)) == []
    ensures var i, w := v.At(t).index, FetchStep(v, t, span);
            var mine, rest := Blocks(span, Bytes(i), 0, CarvedForThread(i)), Blocks(span, Bytes(i), CarvedForThread(i), CarvedBlocks(i));
            && w.lists == v.lists[Shared(i) := rest][InFlight(t) := mine]
            && w.owner == v.owner + (map a | a in mine :: In(InFlight(t))) + (map a | a in rest :: In(Shared(i)))
            && w.owner.Keys == v.owner.Keys + (set a | a in mine + rest)
            && w.class_ == v.class_ + (map a | a in mine + rest :: i) && w.mapped == v.mapped + SpanWords(span, i)
            && w.phase == v.phase[t := Fetched(i)]
  {
  }

  lemma CarveClassified(v: View, w: View, t: nat, i: nat, mine: seq<Addr>, rest: seq<Addr>)
    requires Classified(v) && i < FREE_LIST_SIZE
    requires w.lists == v.lists[Shared(i) := rest][InFlight(t) := mine]
    requires w.class_ == v.class_ + (map a | a in mine + rest :: i)
    requires w.owner.Keys == v.owner.Keys + (set a | a in mine + rest)
    requires w.phase == v.phase[t := Fetched(i)]
    requires forall a :: a in mine || a in rest ==> a !in v.class_
    ensures Classified(w)
  {
    assert forall a :: a in mine + rest <==> a in mine || a in rest;
    forall p, a | a in w.List(p) ensures a in w.class_ && w.class_[a] == w.ClassOf(p) {
      if p != Shared(i) && p != InFlight(t) {
        assert a in v.List(p);
        assert w.ClassOf(p) == v.ClassOf(p);
      }
    }
  }

  // ---------------------------------------------------------------------- runs

  /** Every enabled step of every thread keeps the invariant, as long as fewer
      than WORD / 64 steps were taken. */
  lemma StepKeepsInvariant(v: View, e: Step)
    requires Invariant(v) && Enabled(v, e) && 64 * (v.steps + 1) < WORD
    ensures Invariant(Apply(v, e))
    ensures Apply(v, e).steps <= v.steps + 1
    ensures v.owner.Keys <= Apply(v, e).owner.Keys
  {
    StepCounts(v, e);
    match e
    case Alloc(t, size) => AllocKeeps(v, t, size);
    case Fetch(t, span) => FetchKeeps(v, t, span);
    case FetchFails(t) => FailKeeps(v, t);
    case Finish(t) => FinishKeeps(v, t);
    case Free(t, ptr, size) => FreeKeeps(v, t, ptr, size);
    case Return(t) => ReturnKeeps(v, t);
    case Write(_, _) =>
  }

  lemma StepCounts(v: View, e: Step)
    requires Enabled(v, e)
    ensures Apply(v, e).steps <= v.steps + 1 && v.owner.Keys <= Apply(v, e).owner.Keys
  {
  }

  lemma FetchKeeps(v: View, t: nat, span: Addr)
    requires Invariant(v) && Enabled(v, Fetch(t, span))
    ensures Invariant(FetchStep(v, t, span))
  {
    if v.List(Shared(v.At(t).index)) == [] { CarveKeeps(v, t, span); } else { FetchSharedKeeps(v, t, span); }
  }

  lemma FreeKeeps(v: View, t: nat, ptr: Addr, size: nat)
    requires Invariant(v) && Enabled(v, Free(t, ptr, size)) && 64 * (v.steps + 1) < WORD
    ensures Invariant(FreeStep(v, t, ptr, size))
  {
    PushKeeps(v, t, ptr, size);
    var w := PushStep(v, t, ptr, size);
    FreedSize(size);
    if Splits(w, Cached(t, GetIndex(size))) { SplitKeeps(w, t, GetIndex(size), RoundUp(size)); }
  }

  lemma FreedSize(size: nat)
    requires size <= MAX_BYTES
    ensures GetIndex(size) < FREE_LIST_SIZE && RoundUp(size) == if size == 0 then 0 else Bytes(GetIndex(size))
  {
  }

  lemma InitialInvariant()
    ensures Invariant(INITIAL)
  {
  }

  /** Every state of every run is safe. */
  lemma {:induction false} RunIsSafe(states: seq<View>, events: seq<Step>, k: nat)
    requires Run(states, events) && k < |states| && 64 * |states| < WORD
    ensures Invariant(states[k]) && states[k].steps <= k
  {
    if k == 0 {
      InitialInvariant();
    } else {
      RunIsSafe(states, events, k - 1);
      assert StepAt(states, events, k - 1);
      StepKeepsInvariant(states[k - 1], events[k - 1]);
    }
  }

  /** A carved block stays accounted for, with its class. */
  lemma RunForgetsNothing(states: seq<View>, events: seq<Step>, j: nat, k: nat, a: Addr)
    requires Run(states, events) && j <= k < |states| && 64 * |states| < WORD
    requires a in states[j].class_
    ensures a in states[k].class_ && states[k].class_[a] == states[j].class_[a] && a in states[k].owner
  {
    RunKeepsClass(states, events, j, k, a);
    RunIsPlaced(states, events, k);
  }

  lemma {:induction false} RunKeepsClass(states: seq<View>, events: seq<Step>, j: nat, k: nat, a: Addr)
    requires Run(states, events) && j <= k < |states| && 64 * |states| < WORD
    requires a in states[j].class_
    ensures a in states[k].class_ && states[k].class_[a] == states[j].class_[a]
  {
    if j < k {
      RunKeepsClass(states, events, j, k - 1, a);
      RunStepKeepsClass(states, events, k - 1, a);
    }
  }

  lemma RunIsPlaced(states: seq<View>, events: seq<Step>, k: nat)
    requires Run(states, events) && k < |states| && 64 * |states| < WORD
    ensures Placed(states[k].class_, states[k].mapped) && states[k].class_.Keys == states[k].owner.Keys
  {
    RunIsSafe(states, events, k);
  }

  lemma RunStepKeepsClass(states: seq<View>, events: seq<Step>, k: nat, a: Addr)
    requires Run(states, events) && k < |events| && 64 * |states| < WORD && a in states[k].class_
    ensures a in states[k + 1].class_ && states[k + 1].class_[a] == states[k].class_[a]
  {
    RunIsPlaced(states, events, k);
    assert StepAt(states, events, k);
    StepKeepsClass(states[k], events[k], a);
  }

  lemma StepKeepsClass(v: View, e: Step, a: Addr)
    requires Placed(v.class_, v.mapped) && Enabled(v, e) && a in v.class_
    ensures a in Apply(v, e).class_ && Apply(v, e).class_[a] == v.class_[a]
  {
    if e.Fetch? {
      FetchKeepsClass(v, e.tid, e.span, a);
    }
  }

  lemma FetchKeepsClass(v: View, t: nat, span: Addr, a: Addr)
    requires Placed(v.class_, v.mapped) && Enabled(v, Fetch(t, span)) && a in v.class_
    ensures a in FetchStep(v, t, span).class_ && FetchStep(v, t, span).class_[a] == v.class_[a]
  {
    var i := v.At(t).index;
    if v.List(Shared(i)) == [] {
      var n := CarvedForThread(i);
      BlocksSplit(span, Bytes(i), n, CarvedBlocks(i));
      CarvePlaced(v, span, i, Blocks(span, Bytes(i), 0, n) + Blocks(span, Bytes(i), n, CarvedBlocks(i)));
    }
  }

  ghost predicate OccursOnce(s: seq<Addr>, a: Addr) {
    exists k :: 0 <= k < |s| && s[k] == a && forall j :: 0 <= j < |s| && s[j] == a ==> j == k
  }

  /** In every state of every run a carved block is either in exactly one list, once, or
      in no list: then it is in the user's hands, unless it was lost. */
  lemma ExactlyOnePlace(states: seq<View>, events: seq<Step>, k: nat, a: Addr)
    requires Run(states, events) && k < |states| && 64 * |states| < WORD
    requires a in states[k].owner
    ensures var v := states[k];
            if v.UserHolds(a) || v.owner[a] == Lost then forall p :: a !in v.List(p)
            else exists p :: OccursOnce(v.List(p), a) && forall q :: a in v.List(q) ==> q == p
  {
    RunIsOwned(states, events, k);
    InOnePlace(states[k], a);
  }

  lemma RunIsOwned(states: seq<View>, events: seq<Step>, k: nat)
    requires Run(states, events) && k < |states| && 64 * |states| < WORD
    ensures Owned(states[k].lists, states[k].owner)
  {
    RunIsSafe(states, events, k);
  }

  lemma InOnePlace(v: View, a: Addr)
    requires Owned(v.lists, v.owner) && a in v.owner
    ensures if v.UserHolds(a) || v.owner[a] == Lost then forall p :: a !in v.List(p)
            else exists p :: OccursOnce(v.List(p), a) && forall q :: a in v.List(q) ==> q == p
  {
    if v.owner[a].In? {
      var p := v.owner[a].place;
      assert a in v.List(p);
      assert OccursOnce(v.List(p), a) by {
        var j :| 0 <= j < |v.List(p)| && v.List(p)[j] == a;
      }
    }
  }

  /** The block that `Alloc` takes from the thread's own list was held by nobody,
      and nobody else's block changes hands. */
  lemma AllocHandsOutOneFreeBlock(v: View, t: nat, size: nat)
    requires Invariant(v) && Enabled(v, Alloc(t, size)) && v.List(Cached(t, GetIndex(Requested(size)))) != []
    ensures var b := v.List(Cached(t, GetIndex(Requested(size))))[0];
            var w := AllocStep(v, t, size);
            && !v.UserHolds(b) && w.UserHolds(b)
            && (forall a :: a != b ==> w.UserHolds(a) == v.UserHolds(a))
            && size <= Bytes(w.class_[b]) && w.class_[b] == GetIndex(Requested(size))
  {
    var p := Cached(t, GetIndex(Requested(size)));
    assert v.List(p)[0] in v.List(p);
    RequestFitsItsClass(Requested(size));
  }

  /** The same for the block that a finished fetch hands out. */
  lemma FinishHandsOutOneFreeBlock(v: View, t: nat)
    requires Invariant(v) && v.At(t).Fetched?
    ensures v.List(InFlight(t)) != []
    ensures var b := v.List(InFlight(t))[0];
            var w := FinishStep(v, t);
            && !v.UserHolds(b) && w.UserHolds(b)
            && (forall a :: a != b ==> w.UserHolds(a) == v.UserHolds(a))
            && w.class_[b] == v.At(t).index
  {
    assert PhaseOk(v, t);
    var s := v.List(InFlight(t));
    assert s[0] in s;
    forall a | a != s[0] ensures FinishStep(v, t).UserHolds(a) == v.UserHolds(a) {
      if a in s { assert a in v.List(InFlight(t)); }
    }
  }

  /** The block that a call ends up with after a miss, whatever the other threads do in
      between, was held by nobody and is big enough for the request. */
  lemma MissedRequestIsServed(states: seq<View>, events: seq<Step>, j: nat, k: nat, t: nat, size: nat)
    requires Run(states, events) && j < k < |events| && 64 * |states| < WORD
    requires events[j] == Alloc(t, size) && events[k] == Finish(t)
    requires forall m :: j < m <= k ==> Missed(states[m], t, GetIndex(Requested(size)))
    ensures states[k].List(InFlight(t)) != []
    ensures var b, w := states[k].List(InFlight(t))[0], states[k + 1];
            && !states[k].UserHolds(b) && w.UserHolds(b) && b in w.class_ && size <= Bytes(w.class_[b])
            && forall a :: a != b ==> w.UserHolds(a) == states[k].UserHolds(a)
  {
    RunIsSafe(states, events, k);
    assert StepAt(states, events, k);
    FinishHandsOutOneFreeBlock(states[k], t);
    assert Missed(states[k], t, GetIndex(Requested(size)));
    RequestFitsItsClass(Requested(size));
  }

  // ----------------------------------------------------------------- counters

  /** Between calls the counter covers the list up to the fetches that failed; without
      such the stored counter is exact and at least the length of the list. */
  lemma CounterCoversList(states: seq<View>, events: seq<Step>, k: nat, t: nat, i: nat)
    requires Run(states, events) && k < |states| && 64 * |states| < WORD
    requires !Missed(states[k], t, i)
    ensures var v, p := states[k], Cached(t, i);
            && |v.List(p)| <= v.Count(p) + v.Failures(p) && v.Stored(p) == v.Count(p) % WORD
            && (v.Failures(p) == 0 ==> |v.List(p)| <= v.Stored(p) == v.Count(p))
  {
    RunIsSafe(states, events, k);
    assert CountOk(states[k], t, i);
  }

  /** A fetch fails only when its step says so. */
  lemma {:induction false} RunWithoutFailures(states: seq<View>, events: seq<Step>, k: nat, p: Place)
    requires Run(states, events) && k < |states| && forall j :: 0 <= j < k ==> !events[j].FetchFails?
    ensures states[k].Failures(p) == 0
  {
    if k > 0 {
      RunWithoutFailures(states, events, k - 1, p);
      assert StepAt(states, events, k - 1);
      StepKeepsFailures(states[k - 1], events[k - 1], p);
    }
  }

  lemma StepKeepsFailures(v: View, e: Step, p: Place)
    requires Enabled(v, e) && !e.FetchFails?
    ensures Apply(v, e).Failures(p) == v.Failures(p)
  {
  }

  /** While a thread waits for its fetch, no step of any thread moves its counter. */
  lemma WaitingKeepsCount(v: View, e: Step, t: nat, i: nat)
    requires Enabled(v, e) && Missed(v, t, i) && Missed(Apply(v, e), t, i)
    ensures Apply(v, e).Count(Cached(t, i)) == v.Count(Cached(t, i))
    ensures Apply(v, e).Failures(Cached(t, i)) == v.Failures(Cached(t, i))
  {
    match e
    case Alloc(u, size) => AllocCounts(v, u, size, Cached(t, i));
    case Fetch(u, span) => FetchCounts(v, u, span);
    case Free(u, ptr, size) => FreeCounts(v, u, ptr, size, Cached(t, i));
    case Finish(u) => FinishCounts(v, u, Cached(t, i));
    case _ =>
  }

  lemma FinishCounts(v: View, t: nat, p: Place)
    requires v.At(t).Fetched?
    ensures var w := FinishStep(v, t);
            w.failed == v.failed && (p != Cached(t, v.At(t).index) ==> w.Count(p) == v.Count(p)) && w.At(t).Idle?
  {
  }

  lemma AllocCounts(v: View, t: nat, size: nat, p: Place)
    ensures var w := AllocStep(v, t, size);
            w.failed == v.failed && (p != Cached(t, GetIndex(Requested(size))) ==> w.Count(p) == v.Count(p))
  {
  }

  lemma FetchCounts(v: View, t: nat, span: Addr)
    requires v.At(t).Fetching?
    ensures FetchStep(v, t, span).count == v.count && FetchStep(v, t, span).failed == v.failed
  {
  }

  lemma FreeCounts(v: View, t: nat, ptr: Addr, size: nat, p: Place)
    ensures var w := FreeStep(v, t, ptr, size);
            w.Failures(p) == v.Failures(p) && (p != Cached(t, GetIndex(size)) ==> w.Count(p) == v.Count(p))
  {
  }

  lemma {:induction false} WaitKeepsCount(states: seq<View>, events: seq<Step>, j: nat, k: nat, t: nat, i: nat)
    requires Run(states, events) && j < k < |states|
    requires forall m :: j < m <= k ==> Missed(states[m], t, i)
    ensures states[k].Count(Cached(t, i)) == states[j + 1].Count(Cached(t, i))
    ensures states[k].Failures(Cached(t, i)) == states[j + 1].Failures(Cached(t, i))
  {
    if j + 1 < k {
      WaitKeepsCount(states, events, j, k - 1, t, i);
      assert Missed(states[k - 1], t, i) && Missed(states[k], t, i) && StepAt(states, events, k - 1);
      WaitingKeepsCount(states[k - 1], events[k - 1], t, i);
    }
  }

  /** A miss may wrap the stored counter below zero. Whatever the other threads do
      before the call ends with a block, it then stands at its value before the call plus
      the batch minus the block handed out; without failed fetches it covers the list. */
  lemma UnderflowIsCancelled(states: seq<View>, events: seq<Step>, j: nat, k: nat, t: nat, size: nat)
    requires Run(states, events) && j < k < |events| && 64 * |states| < WORD
    requires events[j] == Alloc(t, size) && events[k] == Finish(t)
    requires forall m :: j < m <= k ==> Missed(states[m], t, GetIndex(Requested(size)))
    ensures var p := Cached(t, GetIndex(Requested(size)));
            && (states[j].Stored(p) == 0 ==> states[j + 1].Stored(p) == WORD - 1)
            && states[k + 1].Stored(p) == (states[j].Stored(p) + BatchNum(p.index) - 1) % WORD
            && (states[j].Failures(p) == 0 ==>
                  && states[k + 1].Stored(p) == states[j].Stored(p) + BatchNum(p.index) - 1
                  && |states[k + 1].List(p)| <= states[k + 1].Stored(p))
  {
    var i := GetIndex(Requested(size));
    var p := Cached(t, i);
    assert Missed(states[j + 1], t, i) && Missed(states[k], t, i);
    MissAndFinish(states, events, j, k, t, size);
    WaitKeepsCount(states, events, j, k, t, i);
    RunCount(states, events, j, t, i);
    RunCount(states, events, k + 1, t, i);
    CountArithmetic(states[j].Count(p), BatchNum(i));
    BatchNumRange(i);
  }

  lemma MissAndFinish(states: seq<View>, events: seq<Step>, j: nat, k: nat, t: nat, size: nat)
    requires Run(states, events) && j < k < |events| && 64 * |states| < WORD
    requires events[j] == Alloc(t, size) && events[k] == Finish(t)
    requires Missed(states[j + 1], t, GetIndex(Requested(size))) && Missed(states[k], t, GetIndex(Requested(size)))
    ensures var p := Cached(t, GetIndex(Requested(size)));
            && !Missed(states[j], t, p.index) && !Missed(states[k + 1], t, p.index)
            && states[j + 1].Count(p) == states[j].Count(p) - 1 && states[j + 1].Failures(p) == states[j].Failures(p)
            && states[k + 1].Count(p) == states[k].Count(p) + BatchNum(p.index) && states[k + 1].Failures(p) == states[k].Failures(p)
  {
    RunIsSafe(states, events, k);
    assert PhaseOk(states[k], t);
    assert StepAt(states, events, j) && StepAt(states, events, k);
  }

  lemma RunCount(states: seq<View>, events: seq<Step>, k: nat, t: nat, i: nat)
    requires Run(states, events) && k < |states| && 64 * |states| < WORD && !Missed(states[k], t, i)
    ensures var v, p := states[k], Cached(t, i);
            v.Count(p) + v.Failures(p) >= |v.List(p)| && v.Count(p) < WORD
  {
    RunIsSafe(states, events, k);
    assert CountOk(states[k], t, i);
  }

  lemma CountArithmetic(c: int, batch: nat)
    ensures c % WORD == 0 ==> (c - 1) % WORD == WORD - 1
    ensures (c - 1 + batch) % WORD == (c % WORD + batch - 1) % WORD
  {
  }

  /** A return that cuts the list leaves the counter equal to its length. */
  lemma SplitMakesCounterExact(w: View, t: nat, i: nat, alignedSize: nat)
    requires Splits(w, Cached(t, i))
    ensures var x := SplitStep(w, t, i, alignedSize);
            x.Stored(Cached(t, i)) == |x.List(Cached(t, i))| == KeepNum(w.Stored(Cached(t, i)))
  {
  }
}
