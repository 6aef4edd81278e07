/**
 The page cache as a state machine over spans (src/memory/PageCache.cpp): what is
 live, what is free and under which key, and what the span map knows.
 */
module PageSpans {
  import opened Sequences
  import opened FreeLists
  import opened SizeClasses

  type Id = nat

  datatype Extent = Extent(addr: Addr, pages: nat)

  datatype View = View(
    span: map<Id, Extent>,          // every existing Span record
    free: map<nat, seq<Id>>,        // freeSpans_, with [] where a key has a null head
    live: set<Id>,                  // spans in the hands of callers
    index: map<Addr, Id>,           // spanMap_
    obtained: nat)                  // pages obtained from the system
  {
    function List(n: nat): seq<Id> { if n in free then free[n] else [] }
  }

  const EMPTY := View(map[], map[], {}, map[], 0)

  function End(e: Extent): Addr { e.addr + e.pages * PAGE_SIZE }

  predicate Apart(e: Extent, f: Extent) { End(e) <= f.addr || End(f) <= e.addr }

  // ---------------------------------------------------------------- invariant

  ghost predicate Filed(v: View) {
    && v.live <= v.span.Keys
    && (forall n :: n in v.free ==> NoDup(v.free[n]))
    && (forall n, s {:trigger s in v.List(n)} :: s in v.List(n) ==> s in v.span && s !in v.live && v.span[s].pages == n)
    && (forall s {:trigger s in v.live} :: s in v.span && s !in v.live ==> s in v.List(v.span[s].pages))
  }

  ghost predicate Laid(span: map<Id, Extent>) {
    && (forall s {:trigger span[s]} :: s in span ==> s != NULL && span[s].pages >= 1 && span[s].addr != NULL)
    && (forall s, t {:trigger Apart(span[s], span[t])} :: s in span && t in span && s != t ==> Apart(span[s], span[t]))
  }

  ghost predicate Indexed(v: View) {
    && (forall a :: a in v.index ==> v.index[a] in v.span && v.span[v.index[a]].addr == a)
    && (forall s {:trigger s in v.live} :: s in v.live ==> s in v.span && v.span[s].addr in v.index && v.index[v.span[s].addr] == s)
  }

  ghost function Pages(span: map<Id, Extent>): nat {
    if span.Keys == {} then 0
    else
      var s :| s in span.Keys;
      span[s].pages + Pages(span - {s})
  }

  ghost predicate Invariant(v: View) {
    && Filed(v) && Laid(v.span) && Indexed(v)
    && Pages(v.span) == v.obtained
  }

  // -------------------------------------------------------------------- steps

  datatype Step =
    | Reuse(pages: nat, key: nat, fresh_: Id)
    | Obtain(pages: nat, addr: Addr, fresh_: Id)
    | Free(ptr: Addr, pages: nat)

  /** `key` is what `lower_bound(n)` finds among the keys of `freeSpans_`. */
  predicate LowerBound(v: View, n: nat, key: nat) {
    key in v.free && n <= key && forall k :: k in v.free && n <= k ==> key <= k
  }

  function Pop(free: map<nat, seq<Id>>, key: nat): map<nat, seq<Id>>
    requires key in free && free[key] != []
  {
    if |free[key]| > 1 then free[key := free[key][1..]] else free - {key}
  }

  function Push(free: map<nat, seq<Id>>, key: nat, s: Id): map<nat, seq<Id>> {
    free[key := [s] + (if key in free then free[key] else [])]
  }

  /** The head of the list of `key` becomes live and is recorded in the span map. */
  function Taken(v: View, key: nat): View
    requires key in v.free && v.free[key] != [] && v.free[key][0] in v.span
  {
    var s := v.free[key][0];
    v.(free := Pop(v.free, key), live := v.live + {s}, index := v.index[v.span[s].addr := s])
  }

  /** Span s keeps n pages; the others form the span f. */
  function Split(span: map<Id, Extent>, s: Id, n: nat, f: Id): map<Id, Extent>
    requires s in span && n <= span[s].pages
  {
    span[f := Extent(span[s].addr + n * PAGE_SIZE, span[s].pages - n)][s := Extent(span[s].addr, n)]
  }

  /** Best fit: take the first span of the list and give back what is too much. */
  function ReuseStep(v: View, n: nat, key: nat, fresh_: Id): View
    requires key in v.free && v.free[key] != [] && v.free[key][0] in v.span
    requires n <= v.span[v.free[key][0]].pages
  {
    var s := v.free[key][0];
    var w := Taken(v, key);
    if v.span[s].pages == n then w else SplitStep(w, s, n, fresh_)
  }

  /** Span s keeps n pages; the others go back to the free lists as a new span. */
  function SplitStep(w: View, s: Id, n: nat, f: Id): View
    requires s in w.span && n <= w.span[s].pages
  {
    w.(span := Split(w.span, s, n, f), free := Push(w.free, w.span[s].pages - n, f))
  }

  function ObtainStep(v: View, n: nat, addr: Addr, fresh_: Id): View {
    v.(span := v.span[fresh_ := Extent(addr, n)], live := v.live + {fresh_},
       index := v.index[addr := fresh_], obtained := v.obtained + n)
  }

  /** Looking up the list of the following span creates its key if it is absent. */
  function Touch(free: map<nat, seq<Id>>, key: nat): map<nat, seq<Id>> {
    if key in free then free else free[key := []]
  }

  /** Swallow the following span if it is free, then file the span. */
  ghost function FreeStep(v: View, ptr: Addr, n: nat): View
    requires Indexed(v) && n >= 1
  {
    if ptr !in v.index then v
    else
      var s := v.index[ptr];
      var next := ptr + n * PAGE_SIZE;
      Filing(Coalesced(v, s, next), s)
  }

  /** A live span goes to the head of the list of its size. */
  function Filing(w: View, s: Id): View
    requires s in w.span
  {
    w.(free := Push(w.free, w.span[s].pages, s), live := w.live - {s})
  }

  function MergeStep(v: View, s: Id, next: Addr): View
    requires next in v.index && v.index[next] in v.span && s in v.span
  {
    var t := v.index[next];
    var w := v.(free := Touch(v.free, v.span[t].pages));
    if t in w.List(v.span[t].pages) then Swallow(w, s, t, next) else w
  }

  /** Span s takes over the pages of span t, whose record disappears. */
  function Swallow(v: View, s: Id, t: Id, next: Addr): View
    requires s in v.span && t in v.span
  {
    v.(span := Merged(v.span, s, t),
       free := v.free[v.span[t].pages := Without(v.List(v.span[t].pages), t)],
       index := v.index - {next})
  }

  function Merged(span: map<Id, Extent>, s: Id, t: Id): map<Id, Extent>
    requires s in span && t in span
  {
    (span - {t})[s := Extent(span[s].addr, span[s].pages + span[t].pages)]
  }

  /** Merging is tried when the span map knows a span that starts where s ends. */
  function Coalesced(v: View, s: Id, next: Addr): View
    requires s in v.span && (next in v.index ==> v.index[next] in v.span)
  {
    if next in v.index then MergeStep(v, s, next) else v
  }

  /** Well-formed use: at least one page is asked for, a span is freed while live
      and with its own size, the system hands out unmapped pages, a new record is
      new, and the list that `lower_bound` finds has a head. */
  ghost predicate Enabled(v: View, e: Step) {
    match e
    case Reuse(n, key, f) => n >= 1 && LowerBound(v, n, key) && v.free[key] != [] && f != NULL && f !in v.span
    case Obtain(n, addr, f) =>
      && n >= 1 && (forall k :: k in v.free ==> k < n) && f != NULL && f !in v.span && addr != NULL
      && forall s :: s in v.span ==> Apart(v.span[s], Extent(addr, n))
    case Free(ptr, n) =>
      n >= 1 && (ptr in v.index ==> v.index[ptr] in v.live && v.index[ptr] in v.span && v.span[v.index[ptr]].pages == n)
  }

  ghost function Apply(v: View, e: Step): View
    requires Invariant(v) && Enabled(v, e)
  {
    match e
    case Reuse(n, key, f) =>
      assert v.List(key)[0] in v.List(key);
      ReuseStep(v, n, key, f)
    case Obtain(n, addr, f) => ObtainStep(v, n, addr, f)
    case Free(ptr, n) => FreeStep(v, ptr, n)
  }

  // ------------------------------------------------------------- conservation

  lemma {:induction false} PagesSplit(span: map<Id, Extent>, s: Id)
    requires s in span
    ensures Pages(span) == span[s].pages + Pages(span - {s})
    decreases |span.Keys|
  {
    var t :| t in span.Keys && Pages(span) == span[t].pages + Pages(span - {t});
    if t != s {
      PagesSplit(span - {t}, s);
      assert span - {t} - {s} == span - {s} - {t};
      PagesSplit(span - {s}, t);
    }
  }

  lemma PagesSet(span: map<Id, Extent>, s: Id, e: Extent)
    ensures Pages(span[s := e]) == Pages(span - {s}) + e.pages
  {
    PagesSplit(span[s := e], s);
    assert span[s := e] - {s} == span - {s};
  }

  // -------------------------------------------------------------- single steps

  /** Taking the head of a list keeps every other list. */
  lemma PopLists(free: map<nat, seq<Id>>, key: nat, v: View, w: View)
    requires free == v.free && key in free && free[key] != [] && w.free == Pop(free, key)
    ensures w.List(key) == free[key][1..]
    ensures forall n :: n != key ==> w.List(n) == v.List(n)
  {
  }

  lemma PushLists(key: nat, s: Id, v: View, w: View)
    requires w.free == Push(v.free, key, s)
    ensures w.List(key) == [s] + v.List(key)
    ensures forall n :: n != key ==> w.List(n) == v.List(n)
  {
  }

  /** The span `s` leaves the head of its list and becomes live. */
  lemma TakeFiled(v: View, w: View, key: nat)
    requires Filed(v) && key in v.free && v.free[key] != []
    requires w.span == v.span && w.free == Pop(v.free, key) && w.live == v.live + {v.free[key][0]}
    ensures Filed(w)
    ensures v.free[key][0] in v.span && v.free[key][0] !in v.live && v.span[v.free[key][0]].pages == key
  {
    var s := v.free[key][0];
    assert s == v.List(key)[0] && s in v.List(key);
    PopLists(v.free, key, v, w);
    assert v.free[key] == [s] + v.free[key][1..];
    forall n, t | t in w.List(n) ensures t in w.span && t !in w.live && w.span[t].pages == n {
      assert t in v.List(n);
    }
    forall t | t in w.span && t !in w.live ensures t in w.List(w.span[t].pages) {
      assert t in v.List(v.span[t].pages);
    }
  }

  /** A span that is neither live nor in a list is filed under its size. */
  lemma PutFiled(v: View, w: View, s: Id, key: nat)
    requires s in w.span && w.span[s].pages == key && s !in w.live && w.live <= w.span.Keys
    requires forall n :: n in v.free ==> NoDup(v.free[n])
    requires forall n, t {:trigger t in v.List(n)} :: t in v.List(n) ==> t != s && t in w.span && t !in w.live && w.span[t].pages == n
    requires forall t :: t in w.span && t !in w.live && t != s ==> t in v.List(w.span[t].pages)
    requires w.free == Push(v.free, key, s)
    ensures Filed(w)
  {
    PushLists(key, s, v, w);
    assert s !in v.List(key);
    forall n | n in w.free ensures NoDup(w.free[n]) {
      assert w.free[n] == w.List(n);
    }
    forall n, t | t in w.List(n) ensures t in w.span && t !in w.live && w.span[t].pages == n {
      if t != s { assert t in v.List(n); }
    }
    forall t | t in w.span && t !in w.live ensures t in w.List(w.span[t].pages) {
      if t != s { assert t in v.List(w.span[t].pages); }
    }
  }

  lemma TakeKeeps(v: View, w: View, key: nat)
    requires Invariant(v) && key in v.free && v.free[key] != [] && v.free[key][0] in v.span
    requires w == Taken(v, key)
    ensures Invariant(w)
    ensures v.free[key][0] !in v.live && v.span[v.free[key][0]].pages == key
  {
    TakeFiled(v, w, key);
    TakeIndexed(v, w, v.free[key][0]);
  }

  lemma ReuseKeeps(v: View, n: nat, key: nat, f: Id)
    requires Invariant(v) && Enabled(v, Reuse(n, key, f))
    ensures Invariant(Apply(v, Reuse(n, key, f)))
  {
    assert v.List(key)[0] in v.List(key);
    var s := v.free[key][0];
    TakeKeeps(v, Taken(v, key), key);
    if key != n {
      SplitKeeps(Taken(v, key), s, n, f);
    }
  }

  lemma SplitKeeps(w: View, s: Id, n: nat, f: Id)
    requires Invariant(w) && s in w.live && f !in w.span && f != NULL && 1 <= n < w.span[s].pages
    ensures Invariant(SplitStep(w, s, n, f))
  {
    var x := SplitStep(w, s, n, f);
    SplitLaid(w.span, s, n, f);
    SplitFiled(w, x, s, n, f);
    SplitPages(w.span, s, n, f);
    SplitIndexed(w, x, s, n, f);
  }

  lemma SplitIndexed(w: View, x: View, s: Id, n: nat, f: Id)
    requires Indexed(w) && s in w.live && f !in w.span && n <= w.span[s].pages && w.live <= w.span.Keys
    requires x.span == Split(w.span, s, n, f) && x.live == w.live && x.index == w.index
    ensures Indexed(x)
  {
  }

  lemma TakeIndexed(v: View, w: View, s: Id)
    requires Indexed(v) && Laid(v.span) && s in v.span
    requires w.span == v.span && w.live == v.live + {s} && w.index == v.index[v.span[s].addr := s]
    ensures Indexed(w)
  {
    forall t | t in w.live && t != s ensures v.span[t].addr != v.span[s].addr {
      assert Apart(v.span[t], v.span[s]);
    }
  }

  lemma SplitLaid(span: map<Id, Extent>, s: Id, n: nat, f: Id)
    requires Laid(span) && s in span && f !in span && f != NULL && 1 <= n < span[s].pages
    ensures Laid(Split(span, s, n, f))
  {
    var span' := Split(span, s, n, f);
    forall x, y | x in span' && y in span' && x != y ensures Apart(span'[x], span'[y]) {
      var x0, y0 := if x == f then s else x, if y == f then s else y;
      if x0 != y0 { assert Apart(span[x0], span[y0]); }
    }
  }

  lemma SplitFiled(w: View, x: View, s: Id, n: nat, f: Id)
    requires Filed(w) && s in w.live && f !in w.span && 1 <= n < w.span[s].pages
    requires x.span == Split(w.span, s, n, f) && x.live == w.live && x.free == Push(w.free, w.span[s].pages - n, f)
    ensures Filed(x)
  {
    forall t | t in x.span && t !in x.live && t != f ensures t in w.List(x.span[t].pages) {
      assert t in w.List(w.span[t].pages);
    }
    PutFiled(w, x, f, w.span[s].pages - n);
  }

  lemma SplitPages(span: map<Id, Extent>, s: Id, n: nat, f: Id)
    requires s in span && f !in span && n <= span[s].pages
    ensures Pages(Split(span, s, n, f)) == Pages(span)
  {
    var a, b := Extent(span[s].addr, n), Extent(span[s].addr + n * PAGE_SIZE, span[s].pages - n);
    PagesSplit(span, s);
    PagesSet(span[f := b], s, a);
    assert span[f := b] - {s} == (span - {s})[f := b];
    PagesSet(span - {s}, f, b);
    assert span - {s} - {f} == span - {s};
  }

  lemma ObtainKeeps(v: View, n: nat, addr: Addr, f: Id)
    requires Invariant(v) && Enabled(v, Obtain(n, addr, f))
    ensures Invariant(Apply(v, Obtain(n, addr, f)))
  {
    var w := ObtainStep(v, n, addr, f);
    ObtainLaid(v.span, Extent(addr, n), f);
    ObtainFiled(v, w, f, Extent(addr, n));
    ObtainIndexed(v, w, f, Extent(addr, n));
    PagesSet(v.span, f, Extent(addr, n));
    assert v.span - {f} == v.span;
  }

  lemma ObtainIndexed(v: View, w: View, f: Id, e: Extent)
    requires Indexed(v) && Laid(v.span) && f !in v.span && e.pages >= 1
    requires forall s :: s in v.span ==> Apart(v.span[s], e)
    requires w.span == v.span[f := e] && w.live == v.live + {f} && w.index == v.index[e.addr := f]
    ensures Indexed(w)
  {
  }

  lemma ObtainLaid(span: map<Id, Extent>, e: Extent, f: Id)
    requires Laid(span) && f !in span && f != NULL && e.addr != NULL && e.pages >= 1
    requires forall s :: s in span ==> Apart(span[s], e)
    ensures Laid(span[f := e])
  {
  }

  lemma ObtainFiled(v: View, w: View, f: Id, e: Extent)
    requires Filed(v) && f !in v.span
    requires w.span == v.span[f := e] && w.live == v.live + {f} && w.free == v.free
    ensures Filed(w)
  {
    forall m, t | t in w.List(m) ensures t in w.span && t !in w.live && w.span[t].pages == m {
      assert t in v.List(m);
    }
    forall t | t in w.span && t !in w.live ensures t in w.List(w.span[t].pages) {
      assert t in v.List(v.span[t].pages);
    }
  }

  // ------------------------------------------------------------------ freeing

  /** The following span, when it is free, is swallowed: pages are conserved, its
      record disappears from the lists and from the span map. */
  lemma MergeKeeps(v: View, s: Id)
    requires Invariant(v) && s in v.live
    requires s in v.span && End(v.span[s]) in v.index
    ensures v.index[End(v.span[s])] in v.span
    ensures var w := MergeStep(v, s, End(v.span[s]));
            && Invariant(w) && w.live == v.live && s in w.span && w.span[s].addr == v.span[s].addr
  {
    var next := End(v.span[s]);
    var t := v.index[next];
    if t in v.List(v.span[t].pages) {
      SwallowKeeps(v, s, t);
    } else {
      TouchFiled(v, MergeStep(v, s, next), v.span[t].pages);
    }
  }

  lemma SwallowKeeps(v: View, s: Id, t: Id)
    requires Invariant(v) && s in v.live && s in v.span && t in v.span
    requires End(v.span[s]) in v.index && t == v.index[End(v.span[s])]
    requires t in v.List(v.span[t].pages)
    ensures Invariant(MergeStep(v, s, End(v.span[s])))
  {
    var m, w := v.span[t].pages, MergeStep(v, s, End(v.span[s]));
    assert w.List(m) == Without(v.List(m), t);
    MergeLaid(v.span, s, t);
    MergePages(v.span, s, t);
    WithoutIs(v.List(m), t);
    MergeFiled(v, w, s, t);
    MergeIndexed(v, w, s, t);
  }

  lemma MergeIndexed(v: View, w: View, s: Id, t: Id)
    requires Indexed(v) && Laid(v.span) && s in v.live && s in v.span && t in v.span && t !in v.live && s != t
    requires v.live <= v.span.Keys
    requires w.span == Merged(v.span, s, t) && w.live == v.live && w.index == v.index - {v.span[t].addr}
    ensures Indexed(w)
  {
    forall u | u in w.live ensures v.span[u].addr != v.span[t].addr {
      assert Apart(v.span[u], v.span[t]);
    }
    forall a | a in w.index ensures w.index[a] in w.span && w.span[w.index[a]].addr == a {
      assert a in v.index;
    }
  }

  lemma MergeLaid(span: map<Id, Extent>, s: Id, t: Id)
    requires Laid(span) && s in span && t in span && s != t && span[t].addr == End(span[s])
    ensures Laid(Merged(span, s, t))
  {
    var span' := Merged(span, s, t);
    forall x, y | x in span' && y in span' && x != y ensures Apart(span'[x], span'[y]) {
      assert Apart(span[x], span[y]);
      if x == s { assert Apart(span[t], span[y]); }
      if y == s { assert Apart(span[x], span[t]); }
    }
  }

  lemma MergePages(span: map<Id, Extent>, s: Id, t: Id)
    requires s in span && t in span && s != t
    ensures Pages(Merged(span, s, t)) == Pages(span)
  {
    PagesSplit(span, t);
    PagesSplit(span - {t}, s);
    PagesSet(span - {t}, s, Extent(span[s].addr, span[s].pages + span[t].pages));
  }

  lemma MergeFiled(v: View, w: View, s: Id, t: Id)
    requires Filed(v) && s in v.live && t in v.span && t !in v.live
    requires NoDup(w.List(v.span[t].pages))
    requires forall y :: y in w.List(v.span[t].pages) <==> y in v.List(v.span[t].pages) && y != t
    requires forall n :: n != v.span[t].pages ==> w.List(n) == v.List(n)
    requires w.span == Merged(v.span, s, t) && w.live == v.live && w.free.Keys == v.free.Keys
    ensures Filed(w)
  {
    forall n | n in w.free ensures NoDup(w.free[n]) {
      assert w.free[n] == w.List(n);
      assert n != v.span[t].pages ==> w.free[n] == v.free[n];
    }
    forall n, y | y in w.List(n) ensures y in w.span && y !in w.live && w.span[y].pages == n {
      assert y in v.List(n);
    }
    forall y | y in w.span && y !in w.live ensures y in w.List(w.span[y].pages) {
      assert y in v.List(v.span[y].pages);
    }
  }

  lemma TouchFiled(v: View, w: View, m: nat)
    requires Filed(v) && w.span == v.span && w.live == v.live && w.free == Touch(v.free, m)
    ensures Filed(w)
  {
    assert forall n :: w.List(n) == v.List(n);
    forall n, y | y in w.List(n) ensures y in w.span && y !in w.live && w.span[y].pages == n {
      assert y in v.List(n);
    }
  }

  lemma FreeKeeps(v: View, ptr: Addr, n: nat)
    requires Invariant(v) && Enabled(v, Free(ptr, n))
    ensures Invariant(FreeStep(v, ptr, n))
  {
    if ptr in v.index {
      var s := v.index[ptr];
      var next := ptr + n * PAGE_SIZE;
      if next in v.index { MergeKeeps(v, s); }
      FilingKeeps(Coalesced(v, s, next), s);
      assert FreeStep(v, ptr, n) == Filing(Coalesced(v, s, next), s);
    }
  }

  lemma FilingKeeps(w: View, s: Id)
    requires Invariant(w) && s in w.live && s in w.span
    ensures Invariant(Filing(w, s))
  {
    var x := Filing(w, s);
    forall t | t in x.span && t !in x.live && t != s ensures t in w.List(x.span[t].pages) {
      assert t in w.List(w.span[t].pages);
    }
    PutFiled(w, x, s, w.span[s].pages);
  }

  // ---------------------------------------------------------------------- runs

  lemma StepKeepsInvariant(v: View, e: Step)
    requires Invariant(v) && Enabled(v, e)
    ensures Invariant(Apply(v, e))
  {
    match e
    case Reuse(n, key, f) => ReuseKeeps(v, n, key, f);
    case Obtain(n, addr, f) => ObtainKeeps(v, n, addr, f);
    case Free(ptr, n) => FreeKeeps(v, ptr, n);
  }

  /** An enabled step from a sound state. */
  ghost predicate Leads(v: View, e: Step, w: View) {
    Enabled(v, e) && (Invariant(v) ==> w == Apply(v, e))
  }

  /** Step k of a run. */
  ghost predicate StepAt(states: seq<View>, events: seq<Step>, k: nat)
    requires k < |events| && |states| == |events| + 1
  {
    Leads(states[k], events[k], states[k + 1])
  }

  ghost predicate Run(states: seq<View>, events: seq<Step>) {
    && |states| == |events| + 1
    && states[0] == EMPTY
    && forall k {:trigger StepAt(states, events, k)} :: 0 <= k < |events| ==> StepAt(states, events, k)
  }

  /** In every state of every run: live and free spans are pairwise disjoint, their
      pages add up to what the system gave, the list of key n holds n-page spans
      that are not live, every other span is live, and the span map points at
      existing spans by their start. */
  lemma {:induction false} RunIsSound(states: seq<View>, events: seq<Step>, k: nat)
    requires Run(states, events) && k < |states|
    ensures Invariant(states[k])
  {
    if k > 0 {
      RunIsSound(states, events, k - 1);
      assert StepAt(states, events, k - 1);
      StepKeepsInvariant(states[k - 1], events[k - 1]);
    }
  }

  /** The span that an allocation hands out. */
  function Handed(v: View, e: Step): Id
    requires e.Reuse? || e.Obtain?
    requires e.Reuse? ==> e.key in v.free && v.free[e.key] != []
  {
    if e.Reuse? then v.free[e.key][0] else e.fresh_
  }

  /** No span is handed out twice: an allocation makes exactly one span live that was
      not, of the size asked for, which overlaps no span that a caller holds. */
  lemma HandsOutOneFreeSpan(v: View, e: Step)
    requires Invariant(v) && Enabled(v, e) && !e.Free?
    ensures var s, w := Handed(v, e), Apply(v, e);
            && s !in v.live && w.live == v.live + {s} && s in w.span && w.span[s].pages == e.pages
            && w.span[s].addr in w.index && w.index[w.span[s].addr] == s && w.span[s].addr != NULL
            && (forall t :: t in v.live ==> t in w.span && w.span[t] == v.span[t] && Apart(w.span[s], w.span[t]))
  {
    StepKeepsInvariant(v, e);
    if e.Reuse? {
      assert v.List(e.key)[0] in v.List(e.key);
    }
    var s, w := Handed(v, e), Apply(v, e);
    assert s in w.live;
    forall t | t in v.live ensures t in w.span && w.span[t] == v.span[t] && Apart(w.span[s], w.span[t]) {
      assert t in w.live && t != s;
    }
  }

  /** The span that follows the one at ptr is known and free. */
  predicate FreeFollower(v: View, ptr: Addr, n: nat) {
    var next := ptr + n * PAGE_SIZE;
    next in v.index && v.index[next] !in v.live
  }

  /** A freed span swallows the span behind it exactly when the span map knows that one
      and nobody holds it: then it has the pages of both, and the record and the map entry
      of the other are gone. In any case it is free itself, and no other span changes. An
      unknown address changes nothing. */
  lemma FreeMergesIff(v: View, ptr: Addr, n: nat)
    requires Invariant(v) && Enabled(v, Free(ptr, n))
    ensures ptr !in v.index ==> FreeStep(v, ptr, n) == v
    ensures ptr in v.index ==>
              var s, w, next := v.index[ptr], FreeStep(v, ptr, n), ptr + n * PAGE_SIZE;
              && w.live == v.live - {s} && w.obtained == v.obtained
              && (next in v.index ==> v.index[next] in v.span && v.index[next] != s)
              && w.index == (if FreeFollower(v, ptr, n) then v.index - {next} else v.index)
              && w.span == if FreeFollower(v, ptr, n)
                           then (v.span - {v.index[next]})[s := Extent(ptr, n + v.span[v.index[next]].pages)]
                           else v.span
  {
    if ptr in v.index {
      FollowerIsListedIff(v, ptr, n);
    }
  }

  /** The walk finds the follower exactly when nobody holds it. */
  lemma FollowerIsListedIff(v: View, ptr: Addr, n: nat)
    requires Filed(v) && Laid(v.span) && Indexed(v) && Enabled(v, Free(ptr, n)) && ptr in v.index
    ensures var next := ptr + n * PAGE_SIZE;
            next in v.index ==>
              && v.index[next] in v.span && v.index[next] != v.index[ptr]
              && (v.index[next] !in v.live <==> v.index[next] in v.List(v.span[v.index[next]].pages))
  {
  }

  /** The freed span heads the list of its size, the follower it swallowed is cut out of
      its own, and apart from that all lists keep their order. */
  lemma FreeKeepsOrder(v: View, ptr: Addr, n: nat, m: nat) returns (before: seq<Id>, after: seq<Id>)
    requires Invariant(v) && Enabled(v, Free(ptr, n)) && ptr in v.index
    ensures var s, w, next := v.index[ptr], FreeStep(v, ptr, n), ptr + n * PAGE_SIZE;
            && s in w.span && w.List(m) == (if m == w.span[s].pages then [s] else []) + before + after
            && v.List(m) == before
                 + (if FreeFollower(v, ptr, n) && v.span[v.index[next]].pages == m then [v.index[next]] else []) + after
  {
    before, after := MergeKeepsOrder(v, ptr, n, m);
    FilingKeepsOrder(Coalesced(v, v.index[ptr], ptr + n * PAGE_SIZE), v.index[ptr], m, before, after);
  }

  lemma FilingKeepsOrder(w: View, s: Id, m: nat, before: seq<Id>, after: seq<Id>)
    requires s in w.span && w.List(m) == before + after
    ensures Filing(w, s).List(m) == (if m == w.span[s].pages then [s] else []) + before + after
  {
    assert [s] + (before + after) == [s] + before + after;
    assert [] + before + after == before + after;
  }

  lemma MergeKeepsOrder(v: View, ptr: Addr, n: nat, m: nat) returns (before: seq<Id>, after: seq<Id>)
    requires Invariant(v) && Enabled(v, Free(ptr, n)) && ptr in v.index
    ensures var next := ptr + n * PAGE_SIZE;
            && (next in v.index ==> v.index[next] in v.span) && v.index[ptr] in v.span
            && v.index[ptr] in Coalesced(v, v.index[ptr], next).span
            && Coalesced(v, v.index[ptr], next).List(m) == before + after
            && v.List(m) == before
                 + (if FreeFollower(v, ptr, n) && v.span[v.index[next]].pages == m then [v.index[next]] else []) + after
  {
    FollowerIsListedIff(v, ptr, n);
    var next := ptr + n * PAGE_SIZE;
    before, after := v.List(m), [];
    if FreeFollower(v, ptr, n) && v.span[v.index[next]].pages == m {
      before, after := CutOut(v.List(m), v.index[next]);
    }
  }

  lemma CutOut(s: seq<Id>, t: Id) returns (before: seq<Id>, after: seq<Id>)
    requires NoDup(s) && t in s
    ensures s == before + [t] + after && Without(s, t) == before + after
  {
    var j :| 0 <= j < |s| && s[j] == t;
    WithoutAt(s, j);
    before, after := s[..j], s[j + 1..];
  }

  /** A request is served by the smallest free span that is large enough, the first of its
      list; what is too much becomes a free span of its own behind it. */
  lemma ReuseIsBestFit(v: View, n: nat, key: nat, f: Id)
    requires Invariant(v) && Enabled(v, Reuse(n, key, f))
    ensures var s, w := v.free[key][0], Apply(v, Reuse(n, key, f));
            && s in v.span && s !in v.live && w.live == v.live + {s} && w.obtained == v.obtained
            && n <= v.span[s].pages
            && (forall u {:trigger v.span[u]} :: u in v.span && u !in v.live && n <= v.span[u].pages ==> v.span[s].pages <= v.span[u].pages)
            && w.index == v.index[v.span[s].addr := s]
            && (v.span[s].pages == n ==> w.span == v.span)
            && (v.span[s].pages > n ==>
                  w.span == v.span[s := Extent(v.span[s].addr, n)]
                              [f := Extent(v.span[s].addr + n * PAGE_SIZE, v.span[s].pages - n)])
  {
    assert v.List(key)[0] in v.List(key);
    forall u | u in v.span && u !in v.live && n <= v.span[u].pages ensures v.span[v.free[key][0]].pages <= v.span[u].pages {
      assert u in v.List(v.span[u].pages);
    }
  }

  /** Reuse takes the head off a list, and a remainder becomes the head of another; apart
      from that all lists keep their order. */
  lemma ReuseKeepsOrder(v: View, n: nat, key: nat, f: Id, m: nat)
    requires Invariant(v) && Enabled(v, Reuse(n, key, f))
    ensures var s, w := v.free[key][0], Apply(v, Reuse(n, key, f));
            && s in v.span
            && (if n < v.span[s].pages == m + n then [f] else []) + (if m == key then v.List(m)[1..] else v.List(m)) == w.List(m)
  {
    assert v.List(key)[0] in v.List(key);
  }

  /** The system is asked only when no free span is large enough. */
  lemma ObtainOnlyWhenNoneFits(v: View, n: nat, addr: Addr, f: Id, s: Id)
    requires Invariant(v) && Enabled(v, Obtain(n, addr, f)) && s in v.span && s !in v.live
    ensures v.span[s].pages < n
    ensures Apply(v, Obtain(n, addr, f)).free == v.free
  {
    assert s in v.List(v.span[s].pages);
  }

  // -------------------------------------------------------------- null heads

  predicate NullHead(v: View, k: nat) { k in v.free && v.free[k] == [] }

  /** Freeing a span leaves a null head at key k exactly when there was one, or when the
      lookup of the following span creates the key k or empties its list; the key under
      which the span is filed has a head in any case. */
  lemma FreeLeavesNullHeadIff(v: View, ptr: Addr, n: nat, k: nat)
    requires Invariant(v) && Enabled(v, Free(ptr, n)) && ptr in v.index
    ensures var s, next, w := v.index[ptr], ptr + n * PAGE_SIZE, FreeStep(v, ptr, n);
            && s in w.span
            && (NullHead(w, k) <==>
                  k != w.span[s].pages
                  && (NullHead(v, k)
                      || (next in v.index && v.span[v.index[next]].pages == k && (k !in v.free || v.free[k] == [v.index[next]]))))
  {
  }

  /** An allocation creates no null head. */
  lemma AllocationLeavesNoNullHead(v: View, e: Step, k: nat)
    requires Invariant(v) && Enabled(v, e) && !e.Free? && NullHead(Apply(v, e), k)
    ensures NullHead(v, k)
  {
  }

  lemma {:induction false} LeastKey(keys: set<nat>, n: nat) returns (key: nat)
    requires exists k :: k in keys && n <= k
    ensures key in keys && n <= key && forall k :: k in keys && n <= k ==> key <= k
    decreases |keys|
  {
    key :| key in keys && n <= key;
    if k :| k in keys && n <= k < key {
      var top, others := key, keys - {key};
      assert k in others;
      key := LeastKey(others, n);
      assert forall x :: x in keys ==> x == top || x in others;
    }
  }

  /** A request can be served unless the list that `lower_bound` finds is null. */
  lemma RequestIsServedIff(v: View, n: nat, addr: Addr, f: Id)
    requires n >= 1 && f != NULL && f !in v.span && addr != NULL
    requires forall s :: s in v.span ==> Apart(v.span[s], Extent(addr, n))
    ensures ((exists key :: Enabled(v, Reuse(n, key, f))) || Enabled(v, Obtain(n, addr, f)))
            <==> !exists key :: LowerBound(v, n, key) && v.free[key] == []
  {
    if exists k :: k in v.free.Keys && n <= k {
      var key := LeastKey(v.free.Keys, n);
      assert LowerBound(v, n, key);
      if v.free[key] != [] {
        assert Enabled(v, Reuse(n, key, f));
      }
    }
  }

  /** Merging can empty a list without removing its key. From then on the cache
      cannot serve a request for which that key is the lower bound, although the
      run that leads there only makes well-formed calls. */
  lemma NullHeadIsReachable() returns (states: seq<View>, events: seq<Step>)
    ensures Run(states, events)
    ensures var v := states[|states| - 1]; LowerBound(v, 1, 1) && v.free[1] == []
  {
    var a := View(map[1 := Extent(4096, 8)], map[], {1}, map[4096 := 1], 8);
    var b := View(map[1 := Extent(4096, 8), 2 := Extent(36864, 1)], map[], {1, 2}, map[4096 := 1, 36864 := 2], 9);
    var c := View(b.span, map[1 := [2]], {1}, b.index, 9);
    var d := View(map[1 := Extent(4096, 9)], map[1 := [], 9 := [1]], {}, map[4096 := 1], 9);
    ObtainExample(a, b);
    FilingExample(b, c);
    MergeExample(c, d);
    states, events := [EMPTY, a, b, c, d], [Obtain(8, 4096, 1), Obtain(1, 36864, 2), Free(36864, 1), Free(4096, 8)];
    FourSteps(states, events);
  }

  lemma FourSteps(states: seq<View>, events: seq<Step>)
    requires |states| == 5 && |events| == 4 && states[0] == EMPTY
    requires Leads(states[0], events[0], states[1]) && Leads(states[1], events[1], states[2])
    requires Leads(states[2], events[2], states[3]) && Leads(states[3], events[3], states[4])
    ensures Run(states, events)
  {
    forall k: nat | k < 4 ensures StepAt(states, events, k) {
      assert k == 0 || k == 1 || k == 2 || k == 3;
    }
  }

  lemma ObtainExample(a: View, b: View)
    requires a == View(map[1 := Extent(4096, 8)], map[], {1}, map[4096 := 1], 8)
    requires b == View(map[1 := Extent(4096, 8), 2 := Extent(36864, 1)], map[], {1, 2}, map[4096 := 1, 36864 := 2], 9)
    ensures Leads(EMPTY, Obtain(8, 4096, 1), a) && Leads(a, Obtain(1, 36864, 2), b)
  {
    assert a == ObtainStep(EMPTY, 8, 4096, 1);
    assert b == ObtainStep(a, 1, 36864, 2);
  }

  lemma FilingExample(b: View, c: View)
    requires b == View(map[1 := Extent(4096, 8), 2 := Extent(36864, 1)], map[], {1, 2}, map[4096 := 1, 36864 := 2], 9)
    requires c == View(b.span, map[1 := [2]], {1}, b.index, 9)
    ensures Leads(b, Free(36864, 1), c)
  {
    assert Indexed(b);
    assert [2] + [] == [2];
    assert Push(b.free, 1, 2) == c.free && b.live - {2} == c.live;
    assert c == FreeStep(b, 36864, 1);
  }

  lemma MergeExample(c: View, d: View)
    requires c == View(map[1 := Extent(4096, 8), 2 := Extent(36864, 1)], map[1 := [2]], {1}, map[4096 := 1, 36864 := 2], 9)
    requires d == View(map[1 := Extent(4096, 9)], map[1 := [], 9 := [1]], {}, map[4096 := 1], 9)
    ensures Leads(c, Free(4096, 8), d)
  {
    assert Indexed(c);
    var w := MergeStep(c, 1, 36864);
    assert w == View(map[1 := Extent(4096, 9)], map[1 := []], {1}, map[4096 := 1], 9);
    assert [1] + [] == [1];
    assert Push(w.free, 9, 1) == d.free && w.live - {1} == d.live;
    assert d == FreeStep(c, 4096, 8);
  }
}
