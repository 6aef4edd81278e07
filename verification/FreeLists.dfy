/**
 Free lists threaded through the first word of the blocks they hold.
 */
module FreeLists {
  import opened Sequences

  /** An address, or a word of memory; 0 is the null pointer. */
  type Addr = nat

  const NULL: Addr := 0

  /** What the first word of the k-th block of list `s` must hold. */
  function Link(s: seq<Addr>, k: nat): Addr {
    if k + 1 < |s| then s[k + 1] else NULL
  }

  function First(s: seq<Addr>): Addr { if s == [] then NULL else s[0] }

  /** Memory links the blocks of `s` in order, starting at `h`, ending with null. */
  ghost predicate Chain(mem: map<Addr, Addr>, h: Addr, s: seq<Addr>) {
    && h == First(s)
    && forall k :: 0 <= k < |s| ==> s[k] != NULL && s[k] in mem && mem[s[k]] == Link(s, k)
  }

  lemma ChainFrame(mem: map<Addr, Addr>, mem': map<Addr, Addr>, h: Addr, s: seq<Addr>)
    requires Chain(mem, h, s)
    requires forall a :: a in s ==> a in mem' && mem'[a] == mem[a]
    ensures Chain(mem', h, s)
  {
  }

  /** A list read off memory never meets the same block twice. */
  lemma ChainIsAcyclic(mem: map<Addr, Addr>, h: Addr, s: seq<Addr>)
    requires Chain(mem, h, s)
    ensures NoDup(s)
  {
    forall i, j | 0 <= i < j < |s| ensures s[i] != s[j] {
      if s[i] == s[j] {
        Lockstep(mem, h, s, i, j, |s| - 1 - j);
        assert false;
      }
    }
  }

  lemma {:induction false} Lockstep(mem: map<Addr, Addr>, h: Addr, s: seq<Addr>, i: nat, j: nat, d: nat)
    requires Chain(mem, h, s)
    requires i < j && j + d < |s| && s[i] == s[j]
    ensures s[i + d] == s[j + d]
  {
    if d > 0 {
      Lockstep(mem, h, s, i, j, d - 1);
      assert Link(s, i + d - 1) == s[i + d] && Link(s, j + d - 1) == s[j + d];
    }
  }

  /** The head and memory alone determine the list. */
  lemma {:induction false} ChainIsUnique(mem: map<Addr, Addr>, h: Addr, s: seq<Addr>, s': seq<Addr>)
    requires Chain(mem, h, s) && Chain(mem, h, s')
    ensures s == s'
    decreases |s|
  {
    if s == [] || s' == [] {
    } else {
      ChainTail(mem, h, s);
      ChainTail(mem, h, s');
      ChainIsUnique(mem, mem[h], s[1..], s'[1..]);
      assert s == [h] + s[1..] && s' == [h] + s'[1..];
    }
  }

  lemma ChainTail(mem: map<Addr, Addr>, h: Addr, s: seq<Addr>)
    requires Chain(mem, h, s) && s != []
    ensures Chain(mem, mem[h], s[1..])
  {
  }

  /** Writing null after the first n blocks cuts the list in two. */
  lemma ChainCut(mem: map<Addr, Addr>, h: Addr, s: seq<Addr>, n: nat)
    requires Chain(mem, h, s) && NoDup(s) && 1 <= n <= |s|
    ensures Chain(mem[s[n - 1] := NULL], h, s[..n])
    ensures Chain(mem[s[n - 1] := NULL], Link(s, n - 1), s[n..])
  {
  }

  /** Linking the last block of one list to the head of another joins them. */
  lemma ChainJoin(mem: map<Addr, Addr>, h: Addr, s: seq<Addr>, g: Addr, t: seq<Addr>)
    requires Chain(mem, h, s) && Chain(mem, g, t) && s != [] && NoDup(s)
    requires forall a :: a in s ==> a !in t
    ensures Chain(mem[s[|s| - 1] := g], h, s + t)
  {
    var m, u := mem[s[|s| - 1] := g], s + t;
    forall k | 0 <= k < |u|
      ensures u[k] != NULL && u[k] in m && m[u[k]] == Link(u, k)
    {
      if k < |s| {
        assert u[k] == s[k];
      } else {
        assert u[k] == t[k - |s|] && u[k] in t;
        assert Link(u, k) == Link(t, k - |s|);
      }
    }
  }

  /** Linking the n-th block of one list to the head of another drops the blocks
      behind it. */
  lemma ChainSplice(mem: map<Addr, Addr>, h: Addr, s: seq<Addr>, n: nat, g: Addr, t: seq<Addr>)
    requires Chain(mem, h, s) && Chain(mem, g, t) && NoDup(s) && 1 <= n <= |s|
    requires forall a :: a in s ==> a !in t
    ensures Chain(mem[s[n - 1] := g], h, s[..n] + t)
  {
    var cut := mem[s[n - 1] := NULL];
    ChainCut(mem, h, s, n);
    assert s[n - 1] in s;
    ChainFrame(mem, cut, g, t);
    ChainJoin(cut, h, s[..n], g, t);
    assert cut[s[n - 1] := g] == mem[s[n - 1] := g];
  }

  /** Pushing a block that is in no list. */
  lemma ChainPush(mem: map<Addr, Addr>, h: Addr, s: seq<Addr>, p: Addr)
    requires Chain(mem, h, s) && p != NULL && p !in s
    ensures Chain(mem[p := h], p, [p] + s)
  {
  }
}
