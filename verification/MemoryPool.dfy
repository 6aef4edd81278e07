/**
 The memory pool itself: list heads, counters and the words of memory, updated in
 place by each step of each thread (src/memory/ThreadCache.cpp,
 src/memory/CentralCache.cpp). Every method is proved against the step of the
 same name in `PoolOwnership`.
 */
module MemoryPool {
  import opened Sequences
  import opened FreeLists
  import opened SizeClasses
  import opened PoolOwnership
  import PoolSafety
  import PoolTransfers

  function HeadIn(head: map<Place, Addr>, p: Place): Addr {
    if p in head then head[p] else NULL
  }

  /** Every head starts the chain of its list. */
  ghost predicate Threaded(mem: map<Addr, Addr>, head: map<Place, Addr>, lists: map<Place, seq<Addr>>) {
    forall p :: Chain(mem, HeadIn(head, p), ListIn(lists, p))
  }

  /** A write to a word that is the first word of no listed block of other lists
      leaves those lists alone. */
  lemma OthersStayThreaded(mem: map<Addr, Addr>, mem': map<Addr, Addr>, head: map<Place, Addr>, head': map<Place, Addr>,
                           lists: map<Place, seq<Addr>>, lists': map<Place, seq<Addr>>, p: Place, q: Place)
    requires Threaded(mem, head, lists)
    requires Chain(mem', HeadIn(head', p), ListIn(lists', p))
    requires Chain(mem', HeadIn(head', q), ListIn(lists', q))
    requires forall r :: r != p && r != q ==> HeadIn(head', r) == HeadIn(head, r) && ListIn(lists', r) == ListIn(lists, r)
    requires forall r, a {:trigger a in ListIn(lists, r)} ::
               r != p && r != q && a in ListIn(lists, r) && a in mem ==> a in mem' && mem'[a] == mem[a]
    ensures Threaded(mem', head', lists')
  {
    forall r ensures Chain(mem', HeadIn(head', r), ListIn(lists', r)) {
      assert Chain(mem, HeadIn(head, r), ListIn(lists, r));
      if r != p && r != q {
        ChainFrame(mem, mem', HeadIn(head, r), ListIn(lists, r));
      }
    }
  }

  lemma PopThreaded(mem: map<Addr, Addr>, head: map<Place, Addr>, lists: map<Place, seq<Addr>>, p: Place)
    requires Threaded(mem, head, lists) && HeadIn(head, p) != NULL
    ensures ListIn(lists, p) != [] && HeadIn(head, p) == ListIn(lists, p)[0]
    ensures HeadIn(head, p) in mem
    ensures Threaded(mem, head[p := mem[HeadIn(head, p)]], lists[p := ListIn(lists, p)[1..]])
  {
    assert Chain(mem, HeadIn(head, p), ListIn(lists, p));
    ChainTail(mem, HeadIn(head, p), ListIn(lists, p));
    var head', lists' := head[p := mem[HeadIn(head, p)]], lists[p := ListIn(lists, p)[1..]];
    OthersStayThreaded(mem, mem, head, head', lists, lists', p, p);
  }

  /** Cut list p after n blocks; the front stays at `front`, the back goes to `back`. */
  lemma CutThreaded(mem: map<Addr, Addr>, head: map<Place, Addr>, lists: map<Place, seq<Addr>>, owner: map<Addr, Owner>,
                    p: Place, n: nat, front: Place, back: Place)
    requires Threaded(mem, head, lists) && Owned(lists, owner)
    requires 1 <= n <= |ListIn(lists, p)| && front != back
    requires front == p || (back == p && ListIn(lists, front) == [])
    requires back == p || ListIn(lists, back) == []
    ensures var s := ListIn(lists, p);
            Threaded(mem[s[n - 1] := NULL], head[front := s[0]][back := Link(s, n - 1)], lists[front := s[..n]][back := s[n..]])
  {
    var s := ListIn(lists, p);
    assert Chain(mem, HeadIn(head, p), s);
    ChainCut(mem, HeadIn(head, p), s, n);
    assert s[n - 1] in s;
    var mem', head', lists' := mem[s[n - 1] := NULL], head[front := s[0]][back := Link(s, n - 1)], lists[front := s[..n]][back := s[n..]];
    OthersStayThreaded(mem, mem', head, head', lists, lists', front, back);
  }

  /** Put the first n blocks of list p in front of list q. */
  lemma JoinThreaded(mem: map<Addr, Addr>, head: map<Place, Addr>, lists: map<Place, seq<Addr>>, owner: map<Addr, Owner>,
                     p: Place, q: Place, n: nat)
    requires Threaded(mem, head, lists) && Owned(lists, owner) && p != q && 1 <= n <= |ListIn(lists, p)|
    ensures var s := ListIn(lists, p);
            Threaded(mem[s[n - 1] := HeadIn(head, q)], head[p := NULL][q := s[0]], lists[p := []][q := s[..n] + ListIn(lists, q)])
  {
    var s, c := ListIn(lists, p), ListIn(lists, q);
    assert Chain(mem, HeadIn(head, p), s) && Chain(mem, HeadIn(head, q), c);
    PoolSafety.JoinNoDup(lists, owner, p, q);
    assert NoDup(s);
    ChainSplice(mem, HeadIn(head, p), s, n, HeadIn(head, q), c);
    assert s[n - 1] in s;
    var mem', head', lists' := mem[s[n - 1] := HeadIn(head, q)], head[p := NULL][q := s[0]], lists[p := []][q := s[..n] + c];
    OthersStayThreaded(mem, mem', head, head', lists, lists', p, q);
  }

  lemma PushThreaded(mem: map<Addr, Addr>, head: map<Place, Addr>, lists: map<Place, seq<Addr>>, owner: map<Addr, Owner>,
                     p: Place, a: Addr)
    requires Threaded(mem, head, lists) && Owned(lists, owner) && a != NULL && a in owner && owner[a] == User
    ensures Threaded(mem[a := HeadIn(head, p)], head[p := a], lists[p := [a] + ListIn(lists, p)])
  {
    assert Chain(mem, HeadIn(head, p), ListIn(lists, p));
    assert a !in ListIn(lists, p);
    ChainPush(mem, HeadIn(head, p), ListIn(lists, p), a);
    OthersStayThreaded(mem, mem[a := HeadIn(head, p)], head, head[p := a], lists, lists[p := [a] + ListIn(lists, p)], p, p);
  }

  /** New chains in memory that no list had reached. */
  lemma CarveThreaded(mem: map<Addr, Addr>, mem': map<Addr, Addr>, head: map<Place, Addr>, lists: map<Place, seq<Addr>>,
                      p: Place, q: Place, mine: seq<Addr>, rest: seq<Addr>)
    requires Threaded(mem, head, lists) && p != q
    requires Chain(mem', First(mine), mine) && Chain(mem', First(rest), rest)
    requires forall a :: a in mem ==> a in mem' && mem'[a] == mem[a]
    ensures Threaded(mem', head[q := First(rest)][p := First(mine)], lists[q := rest][p := mine])
  {
    OthersStayThreaded(mem, mem', head, head[q := First(rest)][p := First(mine)], lists, lists[q := rest][p := mine], p, q);
  }

  /** The first block of list p leaves, the others become list q. */
  lemma FinishThreaded(mem: map<Addr, Addr>, head: map<Place, Addr>, lists: map<Place, seq<Addr>>, p: Place, q: Place)
    requires Threaded(mem, head, lists) && ListIn(lists, p) != [] && p != q
    ensures HeadIn(head, p) == ListIn(lists, p)[0] && HeadIn(head, p) in mem
    ensures Threaded(mem, head[p := NULL][q := mem[HeadIn(head, p)]], lists[p := []][q := ListIn(lists, p)[1..]])
  {
    assert Chain(mem, HeadIn(head, p), ListIn(lists, p));
    ChainTail(mem, HeadIn(head, p), ListIn(lists, p));
    var head', lists' := head[p := NULL][q := mem[HeadIn(head, p)]], lists[p := []][q := ListIn(lists, p)[1..]];
    OthersStayThreaded(mem, mem, head, head', lists, lists', p, q);
  }

  lemma SameLists(mem: map<Addr, Addr>, head: map<Place, Addr>, lists: map<Place, seq<Addr>>, lists': map<Place, seq<Addr>>)
    requires Threaded(mem, head, lists) && forall p :: ListIn(lists', p) == ListIn(lists, p)
    ensures Threaded(mem, head, lists')
  {
  }

  lemma SplitThreaded(mem: map<Addr, Addr>, head: map<Place, Addr>, w: View, t: nat, i: nat, z: nat)
    requires Threaded(mem, head, w.lists) && Owned(w.lists, w.owner) && w.List(InFlight(t)) == []
    requires |w.List(Cached(t, i))| >= KeepNum(w.Stored(Cached(t, i)))
    ensures var p := Cached(t, i);
            var s, n := w.List(p), KeepNum(w.Stored(p));
            Threaded(mem[s[n - 1] := NULL], head[p := s[0]][InFlight(t) := Link(s, n - 1)], SplitStep(w, t, i, z).lists)
  {
    var p, q := Cached(t, i), InFlight(t);
    var s, n := w.List(p), KeepNum(w.Stored(p));
    CutThreaded(mem, head, w.lists, w.owner, p, n, p, q);
    if n == |s| {
      SameLists(mem[s[n - 1] := NULL], head[p := s[0]][q := Link(s, n - 1)], w.lists[p := s[..n]][q := s[n..]], w.lists[p := s[..n]]);
    }
  }

  /** A user write stays inside a block that is in no list. */
  lemma WriteThreaded(mem: map<Addr, Addr>, head: map<Place, Addr>, v: View, a: Addr, w: Addr, x: Addr)
    requires Threaded(mem, head, v.lists) && Invariant(v) && Enabled(v, Write(a, w))
    ensures Threaded(mem[w := x], head, v.lists)
  {
    forall r, b | b in ListIn(v.lists, r) ensures b != w {
      assert b in v.List(r);
      assert b in v.class_ && b != a;
      assert Apart(a, v.class_[a], b, v.class_[b]);
    }
    forall r ensures Chain(mem[w := x], HeadIn(head, r), ListIn(v.lists, r)) {
      assert Chain(mem, HeadIn(head, r), ListIn(v.lists, r));
      ChainFrame(mem, mem[w := x], HeadIn(head, r), ListIn(v.lists, r));
    }
  }

  function SizeIn(sizes: map<Place, nat>, p: Place): nat {
    if p in sizes then sizes[p] else 0
  }

  function CountIn(count: map<Place, int>, p: Place): int {
    if p in count then count[p] else 0
  }

  /** The stored counters are the exact ones reduced to a `size_t`. */
  ghost predicate Counted(sizes: map<Place, nat>, count: map<Place, int>) {
    forall p :: SizeIn(sizes, p) == CountIn(count, p) % WORD
  }

  lemma KeepNumIsSmall(stored: nat)
    requires stored < WORD
    ensures KeepNum(stored) % WORD == KeepNum(stored)
  {
  }

  /** Unsigned decrement. */
  function Decremented(size: nat): nat { if size == 0 then WORD - 1 else size - 1 }

  lemma DecrementCounted(sizes: map<Place, nat>, count: map<Place, int>, p: Place)
    requires Counted(sizes, count)
    ensures var s := SizeIn(sizes, p);
            Counted(sizes[p := Decremented(s)], count[p := CountIn(count, p) - 1])
  {
    var s := SizeIn(sizes, p);
    assert s == CountIn(count, p) % WORD;
    SetCounted(sizes, count, p, Decremented(s), CountIn(count, p) - 1);
  }

  lemma AddCounted(sizes: map<Place, nat>, count: map<Place, int>, p: Place, d: nat)
    requires Counted(sizes, count)
    ensures Counted(sizes[p := (SizeIn(sizes, p) + d) % WORD], count[p := CountIn(count, p) + d])
  {
    assert SizeIn(sizes, p) == CountIn(count, p) % WORD;
    ModAdd(CountIn(count, p), d);
    SetCounted(sizes, count, p, (SizeIn(sizes, p) + d) % WORD, CountIn(count, p) + d);
  }

  lemma ModAdd(a: int, d: nat)
    ensures (a % WORD + d) % WORD == (a + d) % WORD
  {
  }

  lemma SetCounted(sizes: map<Place, nat>, count: map<Place, int>, p: Place, s: nat, c: int)
    requires Counted(sizes, count) && s == c % WORD
    ensures Counted(sizes[p := s], count[p := c])
  {
    forall q {:trigger SizeIn(sizes, q)} ensures SizeIn(sizes[p := s], q) == CountIn(count[p := c], q) % WORD {
      assert SizeIn(sizes, q) == CountIn(count, q) % WORD;
    }
  }

  /** Link the given blocks in order and end the chain with null. */
  method LinkBlocks(mem: map<Addr, Addr>, s: seq<Addr>) returns (r: map<Addr, Addr>)
    requires s != [] && NoDup(s)
    requires forall k :: 0 <= k < |s| ==> s[k] != NULL && s[k] in mem
    ensures Chain(r, s[0], s)
    ensures r.Keys == mem.Keys
    ensures forall a :: a in mem && a !in s ==> r[a] == mem[a]
  {
    r := mem;
    var i := 1;
    while i < |s|
      invariant 1 <= i <= |s|
      invariant r.Keys == mem.Keys
      invariant forall k :: 0 <= k < i - 1 ==> r[s[k]] == s[k + 1]
      invariant forall a :: a in mem && a !in s ==> r[a] == mem[a]
    {
      r := r[s[i - 1] := s[i]];
      i := i + 1;
    }
    r := r[s[|s| - 1] := NULL];
  }

  /** The two chains built in a zero-filled span. A single block is left unlinked
      and relies on the zero fill for its terminating null. */
  method LinkChains(zeroed: map<Addr, Addr>, mine: seq<Addr>, rest: seq<Addr>) returns (m: map<Addr, Addr>)
    requires mine != [] && NoDup(mine) && NoDup(rest) && forall a :: a in mine ==> a !in rest
    requires forall a :: a in mine || a in rest ==> a != NULL && a in zeroed && zeroed[a] == NULL
    ensures Chain(m, First(mine), mine) && Chain(m, First(rest), rest)
    ensures m.Keys == zeroed.Keys
    ensures forall a :: a in zeroed && a !in mine && a !in rest ==> m[a] == zeroed[a]
  {
    m := zeroed;
    if |mine| > 1 {
      assert forall k :: 0 <= k < |mine| ==> mine[k] in mine;
      m := LinkBlocks(m, mine);
    } else {
      assert mine[0] in mine;
    }
    if rest != [] {
      ghost var m1 := m;
      assert forall k :: 0 <= k < |rest| ==> rest[k] in rest;
      m := LinkBlocks(m, rest);
      ChainFrame(m1, m, First(mine), mine);
    }
  }

  method BuildChains(mem: map<Addr, Addr>, span: Addr, index: nat) returns (m: map<Addr, Addr>)
    requires span != NULL && span % PAGE_SIZE == 0 && SpanWords(span, index) !! mem.Keys
    ensures var n := CarvedForThread(index);
            var mine, rest := Blocks(span, Bytes(index), 0, n), Blocks(span, Bytes(index), n, CarvedBlocks(index));
            Chain(m, First(mine), mine) && Chain(m, First(rest), rest)
    ensures m.Keys == mem.Keys + SpanWords(span, index)
    ensures forall a :: a in mem ==> m[a] == mem[a]
  {
    var size, n, total := Bytes(index), CarvedForThread(index), CarvedBlocks(index);
    var mine, rest := Blocks(span, size, 0, n), Blocks(span, size, n, total);
    PoolSafety.BlocksSplit(span, size, n, total);
    PoolSafety.BlocksNoDup(span, size, 0, n);
    PoolSafety.BlocksNoDup(span, size, n, total);
    var zeroed := mem + map w | w in SpanWords(span, index) :: NULL;
    BlocksAreZero(mem, zeroed, span, index, mine, rest);
    m := LinkChains(zeroed, mine, rest);
  }

  lemma BlocksAreZero(mem: map<Addr, Addr>, m: map<Addr, Addr>, span: Addr, index: nat, mine: seq<Addr>, rest: seq<Addr>)
    requires span != NULL && span % PAGE_SIZE == 0 && SpanWords(span, index) !! mem.Keys
    requires m == mem + map w | w in SpanWords(span, index) :: NULL
    requires mine + rest == Blocks(span, Bytes(index), 0, CarvedBlocks(index))
    ensures forall a :: a in mine || a in rest ==> a != NULL && a !in mem && a in m && m[a] == NULL
  {
    forall a | a in mine || a in rest ensures a != NULL && a !in mem && a in m && m[a] == NULL {
      assert a in mine + rest;
      PoolSafety.CarvedBlockInSpan(span, index, a);
      assert InBlock(a, a, index);
    }
  }

  /** Memory, list heads, stored counters and phases make up the view. */
  ghost predicate Represented(mem: map<Addr, Addr>, head: map<Place, Addr>, sizes: map<Place, nat>, phase: map<nat, Phase>, v: View) {
    && mem.Keys == v.mapped
    && phase == v.phase
    && Threaded(mem, head, v.lists)
    && Counted(sizes, v.count)
  }

  lemma CutRepresented(mem: map<Addr, Addr>, head: map<Place, Addr>, sizes: map<Place, nat>, v: View, t: nat, i: nat, z: nat)
    requires Invariant(v) && Represented(mem, head, sizes, v.phase, v) && v.At(t).Idle?
    requires Splits(v, Cached(t, i))
    ensures var p := Cached(t, i);
            var s, n := v.List(p), KeepNum(v.Stored(p));
            var w, next := SplitStep(v, t, i, z), Link(s, n - 1);
            && HeadIn(head, p) == s[0] && s[n - 1] in mem && mem[s[n - 1]] == next
            && Represented(mem[s[n - 1] := NULL], head[p := s[0]][InFlight(t) := next], sizes[p := n],
                           if next != NULL then v.phase[t := Returning(i, ReturnLimit(v.Stored(p), z))] else v.phase, w)
  {
    var p := Cached(t, i);
    var s, n := v.List(p), KeepNum(v.Stored(p));
    assert Chain(mem, HeadIn(head, p), s);
    SplitThreaded(mem, head, v, t, i, z) by { assert PhaseOk(v, t); }
    KeepNumIsSmall(v.Stored(p));
    SetCounted(sizes, v.count, p, n, n);
  }

  lemma ReturnRepresented(mem: map<Addr, Addr>, head: map<Place, Addr>, sizes: map<Place, nat>, v: View, t: nat)
    requires Invariant(v) && Represented(mem, head, sizes, v.phase, v) && v.At(t).Returning?
    ensures var p, q := InFlight(t), Shared(v.At(t).index);
            var s, n := v.List(p), Reach(v, t);
            && s != [] && HeadIn(head, p) == s[0] && 1 <= n <= |s| && s[n - 1] in mem
            && Represented(mem[s[n - 1] := HeadIn(head, q)], head[p := NULL][q := s[0]], sizes, v.phase[t := Idle], ReturnStep(v, t))
  {
    var p, q := InFlight(t), Shared(v.At(t).index);
    assert PhaseOk(v, t);
    assert Chain(mem, HeadIn(head, p), v.List(p));
    JoinThreaded(mem, head, v.lists, v.owner, p, q, Reach(v, t));
  }

  lemma AllocRepresented(mem: map<Addr, Addr>, head: map<Place, Addr>, sizes: map<Place, nat>, v: View, t: nat, size: nat)
    requires Represented(mem, head, sizes, v.phase, v)
    ensures var i := GetIndex(Requested(size));
            var p := Cached(t, i);
            var h, sizes', w := HeadIn(head, p), sizes[p := Decremented(SizeIn(sizes, p))], AllocStep(v, t, size);
            && h == First(v.List(p)) && (h != NULL ==> h in mem)
            && if h != NULL then Represented(mem, head[p := mem[h]], sizes', v.phase, w)
               else Represented(mem, head, sizes', v.phase[t := Fetching(i)], w)
  {
    var p := Cached(t, GetIndex(Requested(size)));
    DecrementCounted(sizes, v.count, p);
    assert Chain(mem, HeadIn(head, p), v.List(p));
    if HeadIn(head, p) != NULL {
      PopThreaded(mem, head, v.lists, p);
    }
  }

  /** The same, in terms of the split node. */
  lemma CutIs(mem: map<Addr, Addr>, head: map<Place, Addr>, sizes: map<Place, nat>, v: View, t: nat, i: nat, z: nat, splitNode: Addr)
    requires Invariant(v) && Represented(mem, head, sizes, v.phase, v) && v.At(t).Idle?
    requires Splits(v, Cached(t, i)) && splitNode == v.List(Cached(t, i))[KeepNum(v.Stored(Cached(t, i))) - 1]
    ensures splitNode in mem
    ensures var p, n, next := Cached(t, i), KeepNum(v.Stored(Cached(t, i))), mem[splitNode];
            Represented(mem[splitNode := NULL], head[p := HeadIn(head, p)][InFlight(t) := next], sizes[p := n],
                        if next != NULL then v.phase[t := Returning(i, ReturnLimit(v.Stored(p), z))] else v.phase,
                        SplitStep(v, t, i, z))
  {
    CutRepresented(mem, head, sizes, v, t, i, z);
  }

  lemma PushRepresented(mem: map<Addr, Addr>, head: map<Place, Addr>, sizes: map<Place, nat>, phase: map<nat, Phase>, v: View,
                        t: nat, ptr: Addr, size: nat)
    requires Invariant(v) && Represented(mem, head, sizes, phase, v) && Enabled(v, Free(t, ptr, size))
    ensures var p := Cached(t, GetIndex(size));
            && ptr in mem
            && Represented(mem[ptr := HeadIn(head, p)], head[p := ptr], sizes[p := (SizeIn(sizes, p) + 1) % WORD],
                           phase, PushStep(v, t, ptr, size))
  {
    var p := Cached(t, GetIndex(size));
    assert InBlock(ptr, ptr, v.class_[ptr]);
    PushThreaded(mem, head, v.lists, v.owner, p, ptr);
    AddCounted(sizes, v.count, p, 1);
  }

  lemma FinishRepresented(mem: map<Addr, Addr>, head: map<Place, Addr>, sizes: map<Place, nat>, v: View, t: nat)
    requires Represented(mem, head, sizes, v.phase, v) && v.At(t).Fetched? && v.List(InFlight(t)) != []
    ensures var i := v.At(t).index;
            var p, q := InFlight(t), Cached(t, i);
            var h := HeadIn(head, p);
            && h == v.List(p)[0] && h in mem
            && Represented(mem, head[p := NULL][q := mem[h]], sizes[q := (SizeIn(sizes, q) + BatchNum(i)) % WORD],
                           v.phase[t := Idle], FinishStep(v, t))
  {
    var i := v.At(t).index;
    AddCounted(sizes, v.count, Cached(t, i), BatchNum(i));
    FinishThreaded(mem, head, v.lists, InFlight(t), Cached(t, i));
  }

  class MemoryPool {
    var mem: map<Addr, Addr>
    var head: map<Place, Addr>            // freeList_, centralFreeList_, and chains in transit
    var freeListSize: map<Place, nat>     // freeListSize_ of every thread, a size_t
    var phase: map<nat, Phase>
    ghost var view: View

    ghost predicate Valid()
      reads this
    {
      Invariant(view) && Represented(mem, head, freeListSize, phase, view)
    }

    function Size(p: Place): nat
      reads this
    {
      SizeIn(freeListSize, p)
    }

    function Head(p: Place): Addr
      reads this
    {
      HeadIn(head, p)
    }

    /** The pool has taken few enough steps for its counters not to wrap upwards. */
    ghost predicate Young()
      reads this
    {
      64 * (view.steps + 1) < WORD
    }

    constructor ()
      ensures Valid() && view == INITIAL
    {
      mem, head, freeListSize, phase := map[], map[], map[], map[];
      view := INITIAL;
      new;
      PoolSafety.InitialInvariant();
    }

    /** `allocate` up to the point where the list of the thread is found empty. */
    method Allocate(t: nat, size: nat) returns (ptr: Addr)
      requires Valid() && Young() && Enabled(view, Alloc(t, size))
      modifies this
      ensures Valid() && view == Apply(old(view), Alloc(t, size))
      ensures ptr == First(old(view).List(Cached(t, GetIndex(Requested(size)))))
      ensures ptr == NULL <==> view.At(t) == Fetching(GetIndex(Requested(size)))
    {
      var index := GetIndex(if size == 0 then ALIGNMENT else size);
      var p := Cached(t, index);
      ghost var w := AllocStep(view, t, size);
      PoolSafety.AllocKeeps(view, t, size);
      AllocRepresented(mem, head, freeListSize, view, t, size);
      var size' := Decremented(Size(p));
      ptr := Head(p);
      if ptr != NULL {
        freeListSize, head := freeListSize[p := size'], head[p := mem[ptr]];
      } else {
        freeListSize, phase := freeListSize[p := size'], phase[t := Fetching(index)];
      }
      view := w;
    }

    /** Writes all fields, which represent the value w. */
    method Store(mem': map<Addr, Addr>, head': map<Place, Addr>, sizes': map<Place, nat>, phase': map<nat, Phase>, ghost w: View)
      requires Invariant(w) && Represented(mem', head', sizes', phase', w)
      modifies this
      ensures Valid() && view == w
      ensures mem == mem' && head == head' && freeListSize == sizes' && phase == phase'
    {
      mem, head, freeListSize, phase, view := mem', head', sizes', phase', w;
    }

    /** The end of `fetchFromCentralCache`: keep all but the first block. */
    method FinishFetch(t: nat) returns (result: Addr)
      requires Valid() && Young() && Enabled(view, Finish(t))
      modifies this
      ensures Valid() && view == Apply(old(view), Finish(t))
      ensures old(view).List(InFlight(t)) != [] && result == old(view).List(InFlight(t))[0]
    {
      var index := phase[t].index;
      var p, q := InFlight(t), Cached(t, index);
      PoolSafety.FinishKeeps(view, t);
      FinishRepresented(mem, head, freeListSize, view, t);
      ghost var w := FinishStep(view, t);
      result := Head(p);
      var sizes' := freeListSize[q := (Size(q) + BatchNum(index)) % WORD];
      Store(mem, head[p := NULL][q := mem[result]], sizes', phase[t := Idle], w);
    }

    /** `deallocate` up to the hand-over of surplus blocks to the central cache. */
    method Deallocate(t: nat, ptr: Addr, size: nat)
      requires Valid() && Young() && Enabled(view, Free(t, ptr, size))
      modifies this
      ensures Valid() && view == Apply(old(view), Free(t, ptr, size))
    {
      PushBlock(t, ptr, size);
      PoolSafety.FreedSize(size);
      var index := GetIndex(size);
      assert SizeIn(freeListSize, Cached(t, index)) == CountIn(view.count, Cached(t, index)) % WORD;
      if Size(Cached(t, index)) > THRESHOLD {
        ReturnToCentralCache(t, index, RoundUp(size));
      }
    }

    /** Push the block on the list of its class. */
    method PushBlock(t: nat, ptr: Addr, size: nat)
      requires Valid() && Enabled(view, Free(t, ptr, size))
      modifies this
      ensures Valid() && view == PushStep(old(view), t, ptr, size)
    {
      var p := Cached(t, GetIndex(size));
      ghost var w := PushStep(view, t, ptr, size);
      PoolSafety.PushKeeps(view, t, ptr, size);
      PushRepresented(mem, head, freeListSize, phase, view, t, ptr, size);
      var mem', head', sizes' := mem[ptr := Head(p)], head[p := ptr], freeListSize[p := (Size(p) + 1) % WORD];
      assert Represented(mem', head', sizes', phase, w);
      Store(mem', head', sizes', phase, w);
    }

    /** Walk to the last block to keep; if the list is long enough, cut it there. */
    method ReturnToCentralCache(t: nat, index: nat, alignedSize: nat)
      requires Valid() && 64 * view.steps < WORD && view.At(t).Idle? && index < FREE_LIST_SIZE
      requires view.List(Cached(t, index)) != []
      requires Size(Cached(t, index)) > THRESHOLD && (alignedSize == Bytes(index) || alignedSize == 0)
      modifies this
      ensures Valid()
      ensures view == if Splits(old(view), Cached(t, index)) then SplitStep(old(view), t, index, alignedSize) else old(view)
    {
      var p := Cached(t, index);
      ghost var v := view;
      ghost var s := v.List(p);
      var start := Head(p);
      assert Chain(mem, start, s);
      var batchNum := Size(p);
      assert batchNum == v.Stored(p) by { assert SizeIn(freeListSize, p) == CountIn(v.count, p) % WORD; }
      var keepNum := Max(batchNum / 4, 1);
      var returnNum := batchNum - keepNum;
      var splitNode := WalkTo(start, keepNum, s);
      if splitNode != NULL {
        CutOwnList(t, index, splitNode, keepNum, returnNum * alignedSize % WORD, alignedSize);
      }
    }

    /** Cut the list after the last kept block; the rest, if any, is to be returned. */
    method CutOwnList(t: nat, index: nat, splitNode: Addr, keepNum: nat, limit: nat, ghost z: nat)
      requires Valid() && 64 * view.steps < WORD && view.At(t).Idle? && index < FREE_LIST_SIZE
      requires Splits(view, Cached(t, index)) && keepNum == KeepNum(view.Stored(Cached(t, index)))
      requires splitNode == view.List(Cached(t, index))[keepNum - 1]
      requires limit == ReturnLimit(view.Stored(Cached(t, index)), z) && (z == Bytes(index) || z == 0)
      modifies this
      ensures Valid() && view == SplitStep(old(view), t, index, z)
    {
      var p := Cached(t, index);
      ghost var w := SplitStep(view, t, index, z);
      PoolSafety.SplitKeeps(view, t, index, z);
      CutIs(mem, head, freeListSize, view, t, index, z, splitNode);
      var nextNode := mem[splitNode];
      var phase' := if nextNode != NULL then phase[t := Returning(index, limit)] else phase;
      var mem', head' := mem[splitNode := NULL], head[p := Head(p)][InFlight(t) := nextNode];
      Store(mem', head', freeListSize[p := keepNum], phase', w);
    }

    /** The n-th block of the list, or null when the list is shorter. */
    method WalkTo(start: Addr, n: nat, ghost s: seq<Addr>) returns (node: Addr)
      requires Chain(mem, start, s) && n >= 1 && s != []
      ensures node == if n <= |s| then s[n - 1] else NULL
    {
      node := start;
      var i := 0;
      while i < n - 1
        invariant 0 <= i <= n - 1 && i < |s| && node == s[i]
      {
        assert mem[s[i]] == Link(s, i);
        node := mem[node];
        if node == NULL {
          return;
        }
        i := i + 1;
      }
    }

    /** The walk to the end of the chain, at most `limit` blocks away. It reaches the
        last block if and only if the chain is no longer than the limit or a single block. */
    method FindEnd(start: Addr, limit: nat, ghost s: seq<Addr>) returns (end: Addr)
      requires Chain(mem, start, s) && s != []
      ensures end == s[Min(|s|, Max(limit, 1)) - 1]
      ensures mem[end] == NULL <==> |s| <= Max(limit, 1)
    {
      end := start;
      var count := 1;
      while mem[end] != NULL && count < limit
        invariant 1 <= count <= Min(|s|, Max(limit, 1)) && end == s[count - 1]
        decreases |s| - count
      {
        assert mem[s[count - 1]] == Link(s, count - 1);
        end := mem[end];
        count := count + 1;
      }
      assert mem[s[count - 1]] == Link(s, count - 1);
    }

    /** `returnRange` under the lock of its class: look for the last block of the
        returned chain, at most `limit` blocks away, and put what was reached in front. */
    method ReturnRange(t: nat)
      requires Valid() && Young() && Enabled(view, Return(t))
      modifies this
      ensures Valid() && view == Apply(old(view), Return(t))
    {
      ghost var v := view;
      assert PhaseOk(v, t);
      var index, limit := phase[t].index, phase[t].limit;
      var p, q := InFlight(t), Shared(index);
      var start := Head(p);
      ghost var s := v.List(p);
      assert Chain(mem, start, s);
      var end := FindEnd(start, limit, s);
      PoolSafety.ReturnKeeps(v, t);
      ReturnRepresented(mem, head, freeListSize, v, t);
      var mem', head' := mem[end := Head(q)], head[p := NULL][q := start];
      mem, head, phase, view := mem', head', phase[t := Idle], ReturnStep(v, t);
    }

    /** The user stores x in a word of a block it holds. */
    method UserWrite(block: Addr, word: Addr, x: Addr)
      requires Valid() && Enabled(view, Write(block, word))
      modifies this
      ensures Valid() && view == Apply(old(view), Write(block, word))
      ensures mem == old(mem)[word := x]
    {
      WriteThreaded(mem, head, view, block, word, x);
      mem := mem[word := x];
    }

    /** `fetchRange` under the lock of its class. */
    method FetchRange(t: nat, span: Addr)
      requires Valid() && Young() && Enabled(view, Fetch(t, span))
      modifies this
      ensures Valid() && view == Apply(old(view), Fetch(t, span))
      ensures |view.List(InFlight(t))| == BatchNum(view.At(t).index) || view.List(Shared(view.At(t).index)) == []
    {
      ghost var v := view;
      PoolTransfers.BatchIsFull(v, t, span);
      PoolSafety.StepKeepsInvariant(view, Fetch(t, span));
      assert PhaseOk(v, t);
      var index := phase[t].index;
      assert Chain(mem, Head(Shared(index)), v.List(Shared(index)));
      if Head(Shared(index)) == NULL {
        CarveSpan(t, index, span);
      } else {
        CutShared(t, index, BatchNum(index));
      }
      view := FetchStep(v, t, span);
      phase := phase[t := Fetched(index)];
    }

    /** `fetchRange` when the shared list is empty and the page cache has no span: the
        call of `allocate` ends with a null pointer. */
    method FailFetch(t: nat) returns (result: Addr)
      requires Valid() && Enabled(view, FetchFails(t))
      modifies this
      ensures Valid() && view == Apply(old(view), FetchFails(t)) && result == NULL
      ensures freeListSize == old(freeListSize)
    {
      PoolSafety.FailKeeps(view, t);
      ghost var w := FailStep(view, t);
      var index := phase[t].index;
      assert Chain(mem, Head(Shared(index)), view.List(Shared(index)));
      result := Head(Shared(index));
      phase, view := phase[t := Idle], w;
    }

    /** Walk at most `batchNum` blocks down the shared list and cut it there. */
    method CutShared(t: nat, index: nat, batchNum: nat)
      requires Threaded(mem, head, view.lists) && Owned(view.lists, view.owner)
      requires view.List(Shared(index)) != [] && view.List(InFlight(t)) == [] && batchNum >= 1
      modifies this`mem, this`head
      ensures var c := view.List(Shared(index));
              var n := Min(batchNum, |c|);
              Threaded(mem, head, view.lists[Shared(index) := c[n..]][InFlight(t) := c[..n]])
      ensures mem.Keys == old(mem.Keys)
    {
      var result := Head(Shared(index));
      ghost var c := view.List(Shared(index));
      assert Chain(mem, result, c);
      var current, prev, count := result, NULL, 0;
      while current != NULL && count < batchNum
        invariant count <= batchNum && count <= |c|
        invariant current == if count < |c| then c[count] else NULL
        invariant prev == if count == 0 then NULL else c[count - 1]
        decreases batchNum - count
      {
        prev := current;
        current := mem[current];
        count := count + 1;
        assert Link(c, count - 1) == current;
      }
      assert count == Min(batchNum, |c|);
      CutThreaded(mem, head, view.lists, view.owner, Shared(index), count, InFlight(t), Shared(index));
      assert current == Link(c, count - 1);
      mem := mem[prev := NULL];
      head := head[InFlight(t) := result][Shared(index) := current];
      assert view.lists[InFlight(t) := c[..count]][Shared(index) := c[count..]]
          == view.lists[Shared(index) := c[count..]][InFlight(t) := c[..count]];
    }

    /** Cut a fresh span into blocks, some for the thread and the rest shared. */
    method CarveSpan(t: nat, index: nat, span: Addr)
      requires Threaded(mem, head, view.lists) && mem.Keys == view.mapped
      requires FreshSpan(view, span, index) && view.List(Shared(index)) == []
      modifies this`mem, this`head
      ensures var n := CarvedForThread(index);
              Threaded(mem, head, view.lists[Shared(index) := Blocks(span, Bytes(index), n, CarvedBlocks(index))]
                                            [InFlight(t) := Blocks(span, Bytes(index), 0, n)])
      ensures mem.Keys == view.mapped + SpanWords(span, index)
    {
      ghost var n := CarvedForThread(index);
      ghost var mine, rest := Blocks(span, Bytes(index), 0, n), Blocks(span, Bytes(index), n, CarvedBlocks(index));
      var m := BuildChains(mem, span, index);
      CarveThreaded(mem, m, head, view.lists, InFlight(t), Shared(index), mine, rest);
      var remainStart := if TotalBlocks(index) > BatchNum(index) then span + BatchNum(index) * Bytes(index) else NULL;
      BatchNumRange(index);
      assert First(mine) == span && First(rest) == remainStart;
      mem := m;
      head := head[Shared(index) := remainStart][InFlight(t) := span];
    }
  }
}
