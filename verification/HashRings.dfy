/**
 The consistent-hash ring (include/util/ConsistenHash.h): virtual nodes on a sorted
 ring, and lookup by binary search with wrap-around.
 */
module HashRings {
  import opened Decimals

  datatype Option<T> = None | Some(value: T)

  ghost predicate Ordered(s: seq<nat>) {
    forall i, j :: 0 <= i < j < |s| ==> s[i] <= s[j]
  }

  // ----------------------------------------------------------------- sorting

  function Insert(s: seq<nat>, h: nat): seq<nat> {
    if s == [] || h <= s[0] then [h] + s else [s[0]] + Insert(s[1..], h)
  }

  /** `std::sort`. */
  function Sorted(s: seq<nat>): seq<nat> {
    if s == [] then [] else Insert(Sorted(s[1..]), s[0])
  }

  lemma {:induction false} InsertAdds(s: seq<nat>, h: nat)
    ensures multiset(Insert(s, h)) == multiset(s) + multiset{h}
  {
    if s != [] && s[0] < h {
      InsertAdds(s[1..], h);
      assert s == [s[0]] + s[1..];
    }
  }

  lemma InsertMember(s: seq<nat>, h: nat, x: nat)
    requires x in Insert(s, h)
    ensures x in s || x == h
  {
  }

  lemma {:induction false} InsertIs(s: seq<nat>, h: nat)
    requires Ordered(s)
    ensures Ordered(Insert(s, h)) && multiset(Insert(s, h)) == multiset(s) + multiset{h}
  {
    InsertAdds(s, h);
    if s != [] && s[0] < h {
      var t := s[1..];
      assert Ordered(t) by { assert forall i :: 0 <= i < |t| ==> t[i] == s[i + 1]; }
      InsertIs(t, h);
      forall i | 0 <= i < |Insert(t, h)| ensures s[0] <= Insert(t, h)[i] {
        InsertMember(t, h, Insert(t, h)[i]);
      }
      OrderedCons(s[0], Insert(t, h));
    } else {
      assert forall i :: 0 < i < |s| ==> s[0] <= s[i];
      OrderedCons(h, s);
    }
  }

  lemma OrderedCons(x: nat, s: seq<nat>)
    requires Ordered(s) && forall i :: 0 <= i < |s| ==> x <= s[i]
    ensures Ordered([x] + s)
  {
  }

  lemma {:induction false} SortedIs(s: seq<nat>)
    ensures Ordered(Sorted(s)) && multiset(Sorted(s)) == multiset(s)
  {
    if s != [] {
      SortedIs(s[1..]);
      InsertIs(Sorted(s[1..]), s[0]);
      assert s == [s[0]] + s[1..];
    }
  }

  // ------------------------------------------------------------------ lookup

  /** The owner of position h among the hashes of the ring: the nearest hash strictly
      after h, or the least one when none is after it. */
  ghost predicate IsOwner(ring: set<nat>, h: nat, owner: nat) {
    && owner in ring
    && if exists x :: x in ring && x > h
       then owner > h && forall x :: x in ring && x > h ==> owner <= x
       else forall x :: x in ring ==> owner <= x
  }

  lemma OwnerIsUnique(ring: set<nat>, h: nat, a: nat, b: nat)
    requires IsOwner(ring, h, a) && IsOwner(ring, h, b)
    ensures a == b
  {
  }

  /** Adding hashes moves a key only to one of the new hashes, and only a key whose
      new owner comes before its old one on the way round. */
  lemma AddingMovesToNewOnly(ring: set<nat>, added: set<nat>, h: nat, before: nat, after: nat)
    requires IsOwner(ring, h, before) && IsOwner(ring + added, h, after)
    ensures after == before || after in added - ring
    ensures after == before <==> forall x :: x in added ==> !Closer(h, x, before)
  {
  }

  /** Walking up from h and round, x is met strictly before y. */
  predicate Closer(h: nat, x: nat, y: nat) {
    if x > h then y <= h || x < y else y <= h && x < y
  }

  function VirtualNode(node: string, i: nat): string { node + "_0" + Decimal(i) }

  /** The virtual nodes of a node are different strings, each with the index in decimal
      behind the name, so only the hash function can make two of them collide. */
  lemma VirtualNodesDiffer(node: string, i: nat, j: nat)
    ensures VirtualNode(node, i) == VirtualNode(node, j) ==> i == j
    ensures var text := VirtualNode(node, i)[|node| + 2..];
            node <= VirtualNode(node, i) && ParseDigits(text) == i && (text[0] == '0' ==> i == 0)
  {
    DecimalParses(i);
    DecimalParses(j);
    assert VirtualNode(node, i)[|node| + 2..] == Decimal(i);
    assert VirtualNode(node, j)[|node| + 2..] == Decimal(j);
  }

  // ------------------------------------------------------------------- object

  class ConsistentHash {
    const numReplicas: nat
    const hashFunction: string -> nat
    var circle: map<nat, string>
    var sortedHashes: seq<nat>

    ghost function Ring(): set<nat>
      reads this
    {
      set h | h in sortedHashes
    }

    ghost predicate Valid()
      reads this
    {
      Ordered(sortedHashes) && circle.Keys == Ring()
    }

    /** Hash of the i-th virtual node. */
    function Replica(node: string, i: nat): nat {
      hashFunction(VirtualNode(node, i))
    }

    ghost function Replicas(node: string, n: nat): set<nat> {
      set i | 0 <= i < n :: Replica(node, i)
    }

    constructor (numReplicas: nat, hashFunction: string -> nat)
      ensures Valid() && Ring() == {}
      ensures this.numReplicas == numReplicas && this.hashFunction == hashFunction
    {
      this.numReplicas, this.hashFunction := numReplicas, hashFunction;
      circle, sortedHashes := map[], [];
    }

    /** The virtual nodes join the ring and now name the node; no other hash changes. */
    method AddNode(node: string)
      requires Valid()
      modifies this
      ensures Valid() && Ring() == old(Ring()) + Replicas(node, numReplicas)
      ensures |sortedHashes| == |old(sortedHashes)| + numReplicas
      ensures forall h :: h in circle ==>
                circle[h] == if h in Replicas(node, numReplicas) then node else old(circle)[h]
    {
      for i := 0 to numReplicas
        invariant Ring() == circle.Keys == old(Ring()) + Replicas(node, i)
        invariant |sortedHashes| == |old(sortedHashes)| + i
        invariant forall h :: h in circle ==> circle[h] == if h in Replicas(node, i) then node else old(circle)[h]
      {
        var hash := Replica(node, i);
        assert Replicas(node, i + 1) == Replicas(node, i) + {hash};
        circle := circle[hash := node];
        sortedHashes := sortedHashes + [hash];
      }
      ghost var unsorted := sortedHashes;
      SortedIs(sortedHashes);
      sortedHashes := Sorted(sortedHashes);
      assert multiset(sortedHashes) == multiset(unsorted);
      assert forall h :: h in sortedHashes <==> h in multiset(sortedHashes);
      assert forall h :: h in unsorted <==> h in multiset(unsorted);
      assert |sortedHashes| == |multiset(sortedHashes)| == |unsorted|;
    }

    /** `std::upper_bound`: the first position whose hash is greater. */
    method UpperBound(hash: nat) returns (lo: nat)
      requires Valid()
      ensures lo <= |sortedHashes|
      ensures forall i :: 0 <= i < lo ==> sortedHashes[i] <= hash
      ensures forall i :: lo <= i < |sortedHashes| ==> sortedHashes[i] > hash
    {
      var len := |sortedHashes|;
      lo := 0;
      while len > 0
        invariant 0 <= lo <= lo + len <= |sortedHashes|
        invariant forall i :: 0 <= i < lo ==> sortedHashes[i] <= hash
        invariant forall i :: lo + len <= i < |sortedHashes| ==> sortedHashes[i] > hash
      {
        var half := len / 2;
        if hash < sortedHashes[lo + half] {
          len := half;
        } else {
          lo, len := lo + half + 1, len - half - 1;
        }
      }
    }

    /** The owner of the key, or an error when the ring is empty. */
    method GetNode(key: string) returns (r: Option<nat>)
      requires Valid()
      ensures r.None? <==> Ring() == {}
      ensures r.Some? ==> IsOwner(Ring(), hashFunction(key), r.value)
    {
      if circle == map[] {
        return None;
      }
      var hash := hashFunction(key);
      var it := UpperBound(hash);
      assert sortedHashes != [];
      if it == |sortedHashes| {
        it := 0;
      }
      r := Some(sortedHashes[it]);
    }
  }

  /** Looking a key up before and after a node is added: the answer changes only to one
      of the new hashes, and changes if and only if a new hash comes before the old answer
      on the way round from the key. */
  method LookUpAcrossAddition(ring: ConsistentHash, node: string, key: string) returns (before: Option<nat>, after: Option<nat>)
    requires ring.Valid()
    modifies ring
    ensures ring.Valid()
    ensures before.Some? <==> old(ring.Ring()) != {}
    ensures before.None? && after.Some? ==> after.value in ring.Replicas(node, ring.numReplicas)
    ensures before.Some? ==>
              var added, h := ring.Replicas(node, ring.numReplicas), ring.hashFunction(key);
              && after.Some? && (after == before || after.value in added - old(ring.Ring()))
              && (after == before <==> forall x :: x in added ==> !Closer(h, x, before.value))
  {
    before := ring.GetNode(key);
    ghost var was := ring.Ring();
    ring.AddNode(node);
    after := ring.GetNode(key);
    if before.Some? {
      AddingMovesToNewOnly(was, ring.Replicas(node, ring.numReplicas), ring.hashFunction(key), before.value, after.value);
    }
  }
}
