/**
 The page cache itself: `Span` records linked into free lists, the map of list
 heads and the span map, updated in place (src/memory/PageCache.cpp). Each method
 is proved against the step of the same meaning in `PageSpans`.

 A `Span` record is an identifier with an entry in `extent` (its address and number
 of pages) and one in `next`; deleting a record removes both entries, so a use after
 deletion would not verify.
 */
module PageCache {
  import opened Sequences
  import opened FreeLists
  import opened SizeClasses
  import opened PageSpans

  ghost predicate Threaded(nexts: map<Id, Id>, heads: map<nat, Id>, free: map<nat, seq<Id>>) {
    && heads.Keys == free.Keys
    && forall n :: n in free ==> Chain(nexts, heads[n], free[n])
  }

  /** No span is in two lists. */
  ghost predicate Separate(free: map<nat, seq<Id>>) {
    && (forall n :: n in free ==> NoDup(free[n]))
    && forall m, n, s {:trigger s in free[m], s in free[n]} :: m in free && n in free && s in free[m] && s in free[n] ==> m == n
  }

  lemma FiledIsSeparate(v: View)
    requires Filed(v)
    ensures Separate(v.free)
    ensures forall n, s {:trigger s in v.free[n]} :: n in v.free && s in v.free[n] ==> s in v.span && s !in v.live && v.span[s].pages == n
  {
    forall n, s {:trigger s in v.free[n]} | n in v.free && s in v.free[n] ensures s in v.span && s !in v.live && v.span[s].pages == n {
      assert s in v.List(n);
    }
  }

  /** Changing the link of spans that are in no other list leaves those lists alone. */
  lemma OthersThreaded(nexts: map<Id, Id>, nexts': map<Id, Id>, heads: map<nat, Id>, heads': map<nat, Id>,
                       free: map<nat, seq<Id>>, free': map<nat, seq<Id>>, key: nat)
    requires Threaded(nexts, heads, free)
    requires heads'.Keys == free'.Keys
    requires key in free' ==> Chain(nexts', heads'[key], free'[key])
    requires forall n :: n in free' && n != key ==> n in free && heads'[n] == heads[n] && free'[n] == free[n]
    requires forall n, s {:trigger s in free[n]} :: n in free && n != key && s in free[n] && s in nexts ==> s in nexts' && nexts'[s] == nexts[s]
    ensures Threaded(nexts', heads', free')
  {
    forall n | n in free' ensures Chain(nexts', heads'[n], free'[n]) {
      if n != key { ChainFrame(nexts, nexts', heads[n], free[n]); }
    }
  }

  lemma PopThreaded(nexts: map<Id, Id>, heads: map<nat, Id>, free: map<nat, seq<Id>>, key: nat)
    requires Threaded(nexts, heads, free) && key in free && free[key] != []
    ensures heads[key] == free[key][0] && heads[key] in nexts
    ensures nexts[heads[key]] != NULL <==> |free[key]| > 1
    ensures Threaded(nexts, if |free[key]| > 1 then heads[key := nexts[heads[key]]] else heads - {key}, Pop(free, key))
  {
  }

  lemma PushThreaded(nexts: map<Id, Id>, heads: map<nat, Id>, free: map<nat, seq<Id>>, key: nat, s: Id)
    requires Threaded(nexts, heads, free) && s != NULL
    requires forall n :: n in free ==> s !in free[n]
    ensures Threaded(nexts[s := if key in heads then heads[key] else NULL], heads[key := s], Push(free, key, s))
  {
  }

  /** Unlinking the k-th span: by the head when it is first, else by its predecessor. */
  lemma ChainUnlink(nexts: map<Id, Id>, h: Id, s: seq<Id>, k: nat)
    requires Chain(nexts, h, s) && NoDup(s) && k < |s|
    ensures k == 0 ==> Chain(nexts, nexts[s[0]], Without(s, s[0]))
    ensures k > 0 ==> Chain(nexts[s[k - 1] := nexts[s[k]]], h, Without(s, s[k]))
  {
    WithoutAt(s, k);
    if k == 0 {
      ChainTail(nexts, h, s);
    } else {
      var u, m := s[..k] + s[k + 1..], nexts[s[k - 1] := nexts[s[k]]];
      forall j | 0 <= j < |u| ensures u[j] != NULL && u[j] in m && m[u[j]] == Link(u, j) {
        assert u[j] == s[if j < k then j else j + 1];
      }
    }
  }

  lemma CutHead(nexts: map<Id, Id>, heads: map<nat, Id>, free: map<nat, seq<Id>>, key: nat)
    requires Threaded(nexts, heads, free) && Separate(free) && key in free && free[key] != []
    ensures var s := free[key]; s[0] in nexts && Threaded(nexts, heads[key := nexts[s[0]]], free[key := Without(s, s[0])])
  {
    var s := free[key];
    ChainUnlink(nexts, heads[key], s, 0);
    OthersThreaded(nexts, nexts, heads, heads[key := nexts[s[0]]], free, free[key := Without(s, s[0])], key);
  }

  lemma CutInner(nexts: map<Id, Id>, heads: map<nat, Id>, free: map<nat, seq<Id>>, key: nat, k: nat)
    requires Threaded(nexts, heads, free) && Separate(free) && key in free && 0 < k < |free[key]|
    ensures var s := free[key];
            && key in heads && s[k] in nexts
            && Threaded(nexts[s[k - 1] := nexts[s[k]]], heads[key := heads[key]], free[key := Without(s, s[k])])
  {
    var s := free[key];
    ChainUnlink(nexts, heads[key], s, k);
    assert s[k - 1] in free[key];
    OthersThreaded(nexts, nexts[s[k - 1] := nexts[s[k]]], heads, heads, free, free[key := Without(s, s[k])], key);
    assert heads[key := heads[key]] == heads;
  }

  lemma DropThreaded(nexts: map<Id, Id>, nexts': map<Id, Id>, heads: map<nat, Id>, free: map<nat, seq<Id>>)
    requires Threaded(nexts, heads, free)
    requires forall n, s {:trigger s in free[n]} :: n in free && s in free[n] && s in nexts ==> s in nexts' && nexts'[s] == nexts[s]
    ensures Threaded(nexts', heads, free)
  {
    forall n | n in free ensures Chain(nexts', heads[n], free[n]) {
      ChainFrame(nexts, nexts', heads[n], free[n]);
    }
  }

  /** Span records, their links, the list heads and the span map make up the view. */
  ghost predicate Represented(extent: map<Id, Extent>, spanMap: map<Addr, Id>, nexts: map<Id, Id>, heads: map<nat, Id>, v: View) {
    extent == v.span && spanMap == v.index && nexts.Keys == extent.Keys && Threaded(nexts, heads, v.free)
  }

  lemma SplitRepresented(spanMap: map<Addr, Id>, nexts: map<Id, Id>, heads: map<nat, Id>, v: View, s: Id, n: nat, f: Id)
    requires Represented(v.span, spanMap, nexts, heads, v) && f != NULL && f !in v.span && Unlisted(v.free, f)
    requires s in v.span && n <= v.span[s].pages
    ensures var rest := v.span[s].pages - n;
            Represented(Split(v.span, s, n, f), spanMap, nexts[f := if rest in heads then heads[rest] else NULL],
                        heads[rest := f], SplitStep(v, s, n, f))
  {
    SplitKeys(v.span, s, n, f);
    PushThreaded(nexts, heads, v.free, v.span[s].pages - n, f);
  }

  lemma SplitKeys(span: map<Id, Extent>, s: Id, n: nat, f: Id)
    requires s in span && n <= span[s].pages
    ensures Split(span, s, n, f).Keys == span.Keys + {f}
  {
  }

  lemma DeleteRepresented(spanMap: map<Addr, Id>, nexts: map<Id, Id>, heads: map<nat, Id>, v: View,
                          s: Id, t: Id, next: Addr, links: map<Id, Id>, head: Id)
    requires Represented(v.span, spanMap, nexts, heads, v) && s in v.span && t in v.span && s != t
    requires var m := v.span[t].pages;
             && m in v.free && links.Keys == nexts.Keys
             && Threaded(links - {t}, heads[m := head], v.free[m := Without(v.free[m], t)])
    ensures Represented(Merged(v.span, s, t), spanMap - {next}, links - {t}, heads[v.span[t].pages := head], Swallow(v, s, t, next))
  {
  }

  datatype Found = NotFound | Key(key: nat)

  class PageCache {
    var extent: map<Id, Extent>
    var next: map<Id, Id>
    var freeSpans: map<nat, Id>
    var spanMap: map<Addr, Id>
    ghost var view: View

    /** The fields represent the view. */
    ghost predicate Represents()
      reads this
    {
      Represented(extent, spanMap, next, freeSpans, view)
    }

    ghost predicate Valid()
      reads this
    {
      Represents() && Invariant(view)
    }

    constructor ()
      ensures Valid() && view == EMPTY
    {
      extent, next, freeSpans, spanMap := map[], map[], map[], map[];
      view := EMPTY;
    }

    /** `freeSpans_.lower_bound(n)`. */
    method LowerBoundKey(n: nat) returns (r: Found)
      ensures r.NotFound? ==> forall k :: k in freeSpans ==> k < n
      ensures r.Key? ==> r.key in freeSpans && n <= r.key && forall k :: k in freeSpans && n <= k ==> r.key <= k
    {
      r := NotFound;
      var rest := freeSpans.Keys;
      while rest != {}
        invariant rest <= freeSpans.Keys
        invariant r.NotFound? ==> forall k :: k in freeSpans && k !in rest ==> k < n
        invariant r.Key? ==> r.key in freeSpans && n <= r.key && forall k :: k in freeSpans && n <= k && k !in rest ==> r.key <= k
        decreases |rest|
      {
        var k :| k in rest;
        rest := rest - {k};
        if n <= k && (r.NotFound? || k < r.key) {
          r := Key(k);
        }
      }
    }

    /** Serve from a free list when a big enough key exists, otherwise from the
        system, whose answer is `memory` (null when `mmap` fails). */
    method AllocateSpan(numPages: nat, memory: Addr, fresh_: Id) returns (addr: Addr)
      requires Valid() && numPages >= 1 && fresh_ != NULL && fresh_ !in extent
      requires forall key :: LowerBound(view, numPages, key) ==> view.free[key] != []
      requires memory != NULL ==> forall s :: s in view.span ==> Apart(view.span[s], Extent(memory, numPages))
      modifies this
      ensures Valid()
      ensures if exists key :: LowerBound(old(view), numPages, key)
              then exists key :: Enabled(old(view), Reuse(numPages, key, fresh_)) && view == Apply(old(view), Reuse(numPages, key, fresh_))
              else if memory == NULL then view == old(view)
              else Enabled(old(view), Obtain(numPages, memory, fresh_)) && view == Apply(old(view), Obtain(numPages, memory, fresh_))
      ensures addr == NULL <==> memory == NULL && !exists key :: LowerBound(old(view), numPages, key)
      ensures addr != NULL ==> HandedOut(old(view), view, numPages, addr)
    {
      NotListed(view, fresh_);
      var it := LowerBoundKey(numPages);
      if it.Key? {
        ReuseIs(view, numPages, it.key, fresh_);
        addr := TakeFree(numPages, it.key, fresh_);
        assert Enabled(old(view), Reuse(numPages, it.key, fresh_));
        return;
      }
      assert forall key :: !LowerBound(view, numPages, key);
      if memory == NULL {
        return NULL;
      }
      addr := memory;
      ObtainIs(view, numPages, memory, fresh_);
      TakeFromSystem(numPages, memory, fresh_);
    }

    method TakeFromSystem(numPages: nat, memory: Addr, fresh_: Id)
      requires Represents() && Unlisted(view.free, fresh_)
      modifies this
      ensures Represents() && view == ObtainStep(old(view), numPages, memory, fresh_)
    {
      DropThreaded(next, next[fresh_ := NULL], freeSpans, view.free);
      extent := extent[fresh_ := Extent(memory, numPages)];
      next := next[fresh_ := NULL];
      spanMap := spanMap[memory := fresh_];
      view := ObtainStep(view, numPages, memory, fresh_);
    }

    /** Take the head of the list of `key`, and split it when it is too big. */
    method TakeFree(numPages: nat, key: nat, fresh_: Id) returns (addr: Addr)
      requires Represents() && key in view.free && view.free[key] != [] && view.free[key][0] in view.span
      requires fresh_ != NULL && fresh_ !in view.span && Unlisted(view.free, fresh_)
      requires numPages <= view.span[view.free[key][0]].pages
      modifies this
      ensures Represents() && view == ReuseStep(old(view), numPages, key, fresh_)
      ensures addr == old(view).span[old(view).free[key][0]].addr
    {
      var span := TakeHead(key);
      addr := extent[span].addr;
      if extent[span].pages > numPages {
        SplitSpan(span, numPages, fresh_);
      }
    }

    /** Unlink the first span of a list and record it in the span map. */
    method TakeHead(key: nat) returns (span: Id)
      requires Represents() && key in view.free && view.free[key] != [] && view.free[key][0] in view.span
      modifies this
      ensures Represents() && span == old(view).free[key][0]
      ensures view == Taken(old(view), key)
    {
      PopThreaded(next, freeSpans, view.free, key);
      span := freeSpans[key];
      freeSpans := if next[span] != NULL then freeSpans[key := next[span]] else freeSpans - {key};
      spanMap := spanMap[extent[span].addr := span];
      view := Taken(view, key);
    }

    /** Keep the first pages of a live span and put the others back as a new span. */
    method SplitSpan(span: Id, numPages: nat, fresh_: Id)
      requires Represents() && fresh_ != NULL && fresh_ !in view.span && Unlisted(view.free, fresh_)
      requires span in view.span && numPages <= view.span[span].pages
      modifies this
      ensures Represents() && view == SplitStep(old(view), span, numPages, fresh_)
    {
      var e := extent[span];
      var rest := e.pages - numPages;
      var list := if rest in freeSpans then freeSpans[rest] else NULL;
      var extents := extent[fresh_ := Extent(e.addr + numPages * PAGE_SIZE, rest)][span := Extent(e.addr, numPages)];
      var links, heads := next[fresh_ := list], freeSpans[rest := fresh_];
      ghost var w := SplitStep(view, span, numPages, fresh_);
      SplitRepresented(spanMap, next, freeSpans, view, span, numPages, fresh_);
      Store(extents, links, heads, w);
    }

    /** Writes the fields that a split changes, which represent the value w. */
    method Store(extents: map<Id, Extent>, links: map<Id, Id>, heads: map<nat, Id>, ghost w: View)
      requires Represented(extents, spanMap, links, heads, w)
      modifies this
      ensures Represents() && view == w
    {
      extent, next, freeSpans, view := extents, links, heads, w;
    }

    /** Merge with the following span if that one is free, then file the span. */
    method DeallocateSpan(ptr: Addr, numPages: nat)
      requires Valid() && Enabled(view, Free(ptr, numPages))
      modifies this
      ensures Valid() && view == Apply(old(view), Free(ptr, numPages))
      ensures ptr in old(view.index) ==>
                var s := old(view.index[ptr]);
                && s in view.span && s !in view.live
                && view.span[s].pages == numPages +
                     if FreeFollower(old(view), ptr, numPages) then PagesAt(old(view), ptr + numPages * PAGE_SIZE) else 0
    {
      ghost var w := Apply(view, Free(ptr, numPages));
      FreeMergesIff(view, ptr, numPages);
      FreeIs(view, ptr, numPages);
      if ptr in spanMap {
        var span, nextAddr := spanMap[ptr], ptr + numPages * PAGE_SIZE;
        FreeFacts(view, ptr, numPages);
        MergeAndFile(span, nextAddr);
      }
      assert view == w;
    }

    method MergeAndFile(span: Id, nextAddr: Addr)
      requires Represents() && Separate(view.free) && span in view.span && span != NULL && Unlisted(view.free, span)
      requires nextAddr in view.index ==>
                 && view.index[nextAddr] in view.span && view.index[nextAddr] != NULL
                 && view.index[nextAddr] != span
      modifies this
      ensures Represents()
      ensures view == Filing(Coalesced(old(view), span, nextAddr), span)
    {
      if nextAddr in spanMap {
        MergeNext(span, nextAddr);
      }
      FileSpan(span);
    }

    /** Put a span at the head of the list of its size. */
    method FileSpan(span: Id)
      requires Represents() && span in view.span && span != NULL && Unlisted(view.free, span)
      modifies this
      ensures Represents() && view == Filing(old(view), span)
    {
      var key := extent[span].pages;
      var list := if key in freeSpans then freeSpans[key] else NULL;
      PushThreaded(next, freeSpans, view.free, key, span);
      next, freeSpans := next[span := list], freeSpans[key := span];
      view := Filing(view, span);
    }

    /** Look for the following span in the list of its size; when it is there,
        unlink it, swallow its pages and delete its record. */
    method MergeNext(span: Id, nextAddr: Addr)
      requires Represents() && Separate(view.free) && span in view.span && Unlisted(view.free, span)
      requires nextAddr in view.index && view.index[nextAddr] in view.span
      requires view.index[nextAddr] != NULL && view.index[nextAddr] != span
      modifies this
      ensures Represents() && view == MergeStep(old(view), span, nextAddr)
      ensures span in view.span && Unlisted(view.free, span)
      ensures Grown(old(view), view, span, old(view.index[nextAddr]))
    {
      MergeGrows(view, span, nextAddr);
      ghost var w := MergeStep(view, span, nextAddr);
      var nextSpan := spanMap[nextAddr];
      var m := extent[nextSpan].pages;
      StillUnlisted(view.free, m, nextSpan, span);
      TouchThreaded(next, freeSpans, view.free, m);
      freeSpans := if m in freeSpans then freeSpans else freeSpans[m := NULL];
      view := view.(free := Touch(view.free, m));
      var found, links, head := Unlink(next, freeSpans[m], nextSpan, view.free[m]);
      if found {
        UnlinkedThreaded(next, freeSpans, view.free, m, nextSpan, links, head);
        DeletedThreaded(links, freeSpans[m := head], view.free, m, nextSpan);
        DeleteSpan(span, nextSpan, nextAddr, links, head);
      }
      assert view == w;
    }

    /** Give the pages of the unlinked span to its predecessor and delete it. */
    method DeleteSpan(span: Id, nextSpan: Id, nextAddr: Addr, links: map<Id, Id>, head: Id)
      requires Represents() && span in view.span && nextSpan in view.span && span != nextSpan
      requires var m := view.span[nextSpan].pages;
               && m in view.free && links.Keys == next.Keys
               && Threaded(links - {nextSpan}, freeSpans[m := head], view.free[m := Without(view.free[m], nextSpan)])
      modifies this
      ensures Represents() && view == Swallow(old(view), span, nextSpan, nextAddr)
    {
      var m := extent[nextSpan].pages;
      DeleteRepresented(spanMap, next, freeSpans, view, span, nextSpan, nextAddr, links, head);
      ghost var w := Swallow(view, span, nextSpan, nextAddr);
      var extent' := (extent - {nextSpan})[span := Extent(extent[span].addr, extent[span].pages + m)];
      var index', next', heads' := spanMap - {nextAddr}, links - {nextSpan}, freeSpans[m := head];
      assert Represented(extent', index', next', heads', w);
      extent, spanMap, next, freeSpans, view := extent', index', next', heads', w;
    }
  }

  /** What the invariant says about a span that is being freed. */
  /** The span of n pages at `addr` became live, and no other. */
  ghost predicate HandedOut(v: View, w: View, n: nat, addr: Addr) {
    && addr in w.index && w.index[addr] !in v.live
    && w.live == v.live + {w.index[addr]}
    && w.index[addr] in w.span && w.span[w.index[addr]] == Extent(addr, n)
  }

  lemma ReuseIs(v: View, n: nat, key: nat, f: Id)
    requires Invariant(v) && n >= 1 && LowerBound(v, n, key) && v.free[key] != [] && f != NULL && f !in v.span
    ensures Enabled(v, Reuse(n, key, f)) && v.free[key][0] in v.span && n <= v.span[v.free[key][0]].pages
    ensures var addr, w := v.span[v.free[key][0]].addr, ReuseStep(v, n, key, f);
            Invariant(w) && addr != NULL && HandedOut(v, w, n, addr)
  {
    assert v.List(key)[0] in v.List(key);
    StepKeepsInvariant(v, Reuse(n, key, f));
    HandsOutOneFreeSpan(v, Reuse(n, key, f));
  }

  lemma ObtainIs(v: View, n: nat, memory: Addr, f: Id)
    requires Invariant(v) && Enabled(v, Obtain(n, memory, f)) && memory != NULL
    ensures Invariant(ObtainStep(v, n, memory, f)) && HandedOut(v, ObtainStep(v, n, memory, f), n, memory)
  {
    StepKeepsInvariant(v, Obtain(n, memory, f));
    HandsOutOneFreeSpan(v, Obtain(n, memory, f));
  }

  /** Pages of the span that the span map knows at this address. */
  function PagesAt(v: View, a: Addr): nat {
    if a in v.index && v.index[a] in v.span then v.span[v.index[a]].pages else 0
  }

  /** Span s has taken over the pages of span t, whose record is gone, exactly if t was in
      the list of its size; otherwise both are as they were. */
  ghost predicate Grown(v: View, w: View, s: Id, t: Id) {
    && s in v.span && t in v.span && s in w.span
    && (t in w.span <==> t !in v.List(v.span[t].pages))
    && w.span[s].pages == v.span[s].pages + if t in v.List(v.span[t].pages) then v.span[t].pages else 0
  }

  lemma MergeGrows(v: View, s: Id, next: Addr)
    requires next in v.index && v.index[next] in v.span && s in v.span && v.index[next] != s
    ensures Grown(v, MergeStep(v, s, next), s, v.index[next])
  {
  }

  lemma FreeIs(v: View, ptr: Addr, n: nat)
    requires Invariant(v) && Enabled(v, Free(ptr, n))
    ensures var w := Apply(v, Free(ptr, n));
            && Invariant(w)
            && (ptr in v.index ==> v.index[ptr] in v.span && w == Filing(Coalesced(v, v.index[ptr], ptr + n * PAGE_SIZE), v.index[ptr]))
            && (ptr !in v.index ==> w == v)
  {
    StepKeepsInvariant(v, Free(ptr, n));
  }

  lemma FreeFacts(v: View, ptr: Addr, n: nat)
    requires Invariant(v) && Enabled(v, Free(ptr, n)) && ptr in v.index
    ensures Separate(v.free)
    ensures var s, next := v.index[ptr], ptr + n * PAGE_SIZE;
            && s in v.span && s != NULL && Unlisted(v.free, s)
            && (next in v.index ==> v.index[next] in v.span && v.index[next] != NULL && v.index[next] != s)
  {
    FiledIsSeparate(v);
    NotListed(v, v.index[ptr]);
  }

  ghost predicate Unlisted(free: map<nat, seq<Id>>, s: Id) {
    forall n :: n in free ==> s !in free[n]
  }

  lemma StillUnlisted(free: map<nat, seq<Id>>, m: nat, t: Id, s: Id)
    requires Unlisted(free, s) && Separate(free)
    ensures Unlisted(Touch(free, m), s)
    ensures Unlisted(Touch(free, m)[m := Without(Touch(free, m)[m], t)], s)
  {
    WithoutIs(Touch(free, m)[m], t);
  }

  ghost predicate Unlinked(nexts: map<Id, Id>, h: Id, s: seq<Id>, span: Id, links: map<Id, Id>, head: Id)
    requires span in s && forall x :: x in s ==> x in nexts
  {
    var k := IndexOf(s, span);
    if k == 0 then links == nexts && head == nexts[span]
    else links == nexts[s[k - 1] := nexts[span]] && head == h
  }

  /** The span t of list m was unlinked, leaving the links and the head of the list. */
  ghost predicate Detached(nexts: map<Id, Id>, heads: map<nat, Id>, free: map<nat, seq<Id>>, m: nat, t: Id, links: map<Id, Id>, head: Id) {
    m in free && m in heads && t in free[m] && (forall x :: x in free[m] ==> x in nexts)
    && Unlinked(nexts, heads[m], free[m], t, links, head)
  }

  lemma UnlinkedThreaded(nexts: map<Id, Id>, heads: map<nat, Id>, free: map<nat, seq<Id>>, m: nat, t: Id, links: map<Id, Id>, head: Id)
    requires Threaded(nexts, heads, free) && Separate(free) && Detached(nexts, heads, free, m, t, links, head)
    ensures Threaded(links, heads[m := head], free[m := Without(free[m], t)])
    ensures links.Keys == nexts.Keys
  {
    UnlinkedKeys(nexts, heads, free, m, t, links, head);
    var k := IndexOf(free[m], t);
    if k == 0 {
      CutHead(nexts, heads, free, m);
    } else {
      CutInner(nexts, heads, free, m, k);
    }
  }

  lemma UnlinkedKeys(nexts: map<Id, Id>, heads: map<nat, Id>, free: map<nat, seq<Id>>, m: nat, t: Id, links: map<Id, Id>, head: Id)
    requires Detached(nexts, heads, free, m, t, links, head)
    ensures links.Keys == nexts.Keys
    ensures var s, k := free[m], IndexOf(free[m], t);
            if k == 0 then links == nexts && head == nexts[s[0]]
            else s[k - 1] in nexts && links == nexts[s[k - 1] := nexts[s[k]]] && head == heads[m]
  {
    var s, k := free[m], IndexOf(free[m], t);
    assert k > 0 ==> s[k - 1] in s;
  }

  /** Deleting the link of a span that was unlinked. */
  lemma DeletedThreaded(links: map<Id, Id>, heads: map<nat, Id>, free: map<nat, seq<Id>>, m: nat, t: Id)
    requires Separate(free) && m in free && t in free[m]
    requires Threaded(links, heads, free[m := Without(free[m], t)])
    ensures Threaded(links - {t}, heads, free[m := Without(free[m], t)])
  {
    var free' := free[m := Without(free[m], t)];
    WithoutIs(free[m], t);
    forall n, s {:trigger s in free'[n]} | n in free' && s in free'[n] ensures s != t {
      if n != m { assert s in free[n]; }
    }
    DropThreaded(links, links - {t}, heads, free');
  }

  function IndexOf(s: seq<Id>, x: Id): (k: nat)
    requires x in s
    ensures k < |s| && s[k] == x
  {
    if s[0] == x then 0 else 1 + IndexOf(s[1..], x)
  }

  lemma TouchThreaded(nexts: map<Id, Id>, heads: map<nat, Id>, free: map<nat, seq<Id>>, m: nat)
    requires Threaded(nexts, heads, free) && Separate(free)
    ensures Threaded(nexts, if m in heads then heads else heads[m := NULL], Touch(free, m))
    ensures Separate(Touch(free, m))
  {
  }

  /** Walk the list that starts at h until the span is found, and unlink it. */
  method Unlink(nexts: map<Id, Id>, h: Id, span: Id, ghost s: seq<Id>)
      returns (found: bool, links: map<Id, Id>, head: Id)
    requires Chain(nexts, h, s) && NoDup(s) && span != NULL && span in nexts
    ensures found <==> span in s
    ensures !found ==> links == nexts && head == h
    ensures forall x :: x in s ==> x in nexts
    ensures found ==> Unlinked(nexts, h, s, span, links, head)
  {
    found, links, head := false, nexts, h;
    if h == span {
      return true, nexts, nexts[span];
    }
    if h != NULL {
      var prev := h;
      ghost var k := 0;
      while nexts[prev] != NULL
        invariant 0 <= k < |s| && prev == s[k]
        invariant forall j :: 0 <= j <= k ==> s[j] != span
        decreases |s| - k
      {
        assert nexts[s[k]] == Link(s, k);
        if nexts[prev] == span {
          assert IndexOf(s, span) == k + 1;
          return true, nexts[prev := nexts[span]], h;
        }
        prev := nexts[prev];
        k := k + 1;
      }
      assert nexts[s[k]] == Link(s, k);
    }
  }

  lemma NotListed(v: View, s: Id)
    requires Filed(v) && (s in v.live || s !in v.span)
    ensures Unlisted(v.free, s)
  {
    FiledIsSeparate(v);
  }
}
