/**
 The doubly linked frequency lists of the LFU cache (include/util/RainLfu.h): nodes
 with `pre` and `next` pointers between two sentinels per list.

 A node is named by what it is: the node of a key, or a sentinel of the list of a
 frequency. A node missing from `next` has a null pointer there.
 */
module FreqLists {
  import opened Sequences
  import opened LfuCache

  datatype Ref = Head(freq: int) | Node(key: Key) | Tail(freq: int)

  datatype Links = Links(next: map<Ref, Ref>, pre: map<Ref, Ref>)

  /** The i-th node of list f, counting from its head sentinel to its tail sentinel. */
  function NodeAt(f: int, s: seq<Key>, i: nat): Ref
    requires i < |s| + 2
  {
    if i == 0 then Head(f) else if i <= |s| then Node(s[i - 1]) else Tail(f)
  }

  /** The nodes at positions i and i + 1 of list f point at each other. */
  ghost predicate JoinedAt(l: Links, f: int, s: seq<Key>, i: nat)
    requires i <= |s|
  {
    var a, b := NodeAt(f, s, i), NodeAt(f, s, i + 1);
    a in l.next && l.next[a] == b && b in l.pre && l.pre[b] == a
  }

  /** List f holds the keys of s in order, whichever way it is walked. */
  ghost predicate Ring(l: Links, f: int, s: seq<Key>) {
    forall i: nat {:trigger JoinedAt(l, f, s, i)} :: i <= |s| ==> JoinedAt(l, f, s, i)
  }

  ghost predicate Linked(l: Links, lists: map<int, seq<Key>>) {
    forall f {:trigger lists[f]} :: f in lists ==> Ring(l, f, lists[f])
  }

  /** No key is in two lists, or twice in one. */
  ghost predicate Apart(lists: map<int, seq<Key>>) {
    && (forall f, g, k {:trigger k in ListIn(lists, f), k in ListIn(lists, g)} ::
          k in ListIn(lists, f) && k in ListIn(lists, g) ==> f == g)
    && (forall f {:trigger NoDup(ListIn(lists, f))} :: NoDup(ListIn(lists, f)))
  }

  // ---------------------------------------------------------------- pointers

  /** Constructor of a list: the sentinels point at each other. */
  function NewList(l: Links, f: int): Links {
    Links(l.next[Head(f) := Tail(f)], l.pre[Tail(f) := Head(f)])
  }

  /** `addNode`: in front of the tail sentinel. */
  function Appended(l: Links, f: int, k: Key): Links
    requires Tail(f) in l.pre
  {
    var last := l.pre[Tail(f)];
    Links(l.next[Node(k) := Tail(f)][last := Node(k)], l.pre[Node(k) := last][Tail(f) := Node(k)])
  }

  /** `removeNode`: its neighbours are joined and its next pointer is cleared. */
  function Removed(l: Links, k: Key): Links {
    if Node(k) !in l.pre || Node(k) !in l.next then l
    else
      var before, after := l.pre[Node(k)], l.next[Node(k)];
      Links(l.next[before := after] - {Node(k)}, l.pre[after := before])
  }

  // ---------------------------------------------------------------- one list

  ghost predicate OnList(f: int, s: seq<Key>, a: Ref) {
    a == Head(f) || a == Tail(f) || (a.Node? && a.key in s)
  }

  /** Pointers that may differ are not those of the nodes of list f. */
  ghost predicate SamePointers(l: Links, l': Links, f: int, s: seq<Key>) {
    && (forall a {:trigger l.next[a]} :: a in l.next && OnList(f, s, a) ==> a in l'.next && l'.next[a] == l.next[a])
    && (forall a {:trigger l.pre[a]} :: a in l.pre && OnList(f, s, a) ==> a in l'.pre && l'.pre[a] == l.pre[a])
  }

  lemma RingFrame(l: Links, l': Links, f: int, s: seq<Key>)
    requires Ring(l, f, s) && SamePointers(l, l', f, s)
    ensures Ring(l', f, s)
  {
    forall i: nat | i <= |s| ensures JoinedAt(l', f, s, i) {
      assert JoinedAt(l, f, s, i);
      assert OnList(f, s, NodeAt(f, s, i)) && OnList(f, s, NodeAt(f, s, i + 1));
    }
  }

  lemma AppendRing(l: Links, f: int, s: seq<Key>, k: Key)
    requires Ring(l, f, s) && k !in s
    ensures Tail(f) in l.pre && l.pre[Tail(f)] == NodeAt(f, s, |s|) && Ring(Appended(l, f, k), f, s + [k])
  {
    assert JoinedAt(l, f, s, |s|);
    forall i: nat | i <= |s| + 1 ensures JoinedAt(Appended(l, f, k), f, s + [k], i) {
      if i < |s| {
        assert JoinedAt(l, f, s, i);
        assert s[i] in s && (i > 0 ==> s[i - 1] in s);
      } else if i == |s| {
        assert i > 0 ==> s[i - 1] in s;
      }
    }
  }

  /** Removing a node joins its neighbours and leaves the rest of the list alone. */
  lemma RemoveRing(l: Links, f: int, s: seq<Key>, j: nat)
    requires Ring(l, f, s) && NoDup(s) && j < |s|
    ensures Ring(Removed(l, s[j]), f, Without(s, s[j]))
  {
    var t := s[..j] + s[j + 1..];
    WithoutAt(s, j);
    forall i: nat | i <= |t| ensures JoinedAt(Removed(l, s[j]), f, t, i) {
      NodesSkip(f, s, j, t, i);
      NodesSkip(f, s, j, t, i + 1);
      RemoveJoins(l, f, s, j, i);
    }
  }

  /** The nodes after a removal, in terms of the nodes before. */
  lemma NodesSkip(f: int, s: seq<Key>, j: nat, t: seq<Key>, i: nat)
    requires j < |s| && t == s[..j] + s[j + 1..] && i < |s| + 1
    ensures NodeAt(f, t, i) == NodeAt(f, s, if i <= j then i else i + 1)
  {
  }

  lemma RemoveJoins(l: Links, f: int, s: seq<Key>, j: nat, i: nat)
    requires Ring(l, f, s) && NoDup(s) && j < |s| && i < |s|
    ensures var a, b := NodeAt(f, s, if i <= j then i else i + 1), NodeAt(f, s, if i < j then i + 1 else i + 2);
            var r := Removed(l, s[j]);
            a in r.next && r.next[a] == b && b in r.pre && r.pre[b] == a
  {
    assert JoinedAt(l, f, s, j) && JoinedAt(l, f, s, j + 1);
    assert JoinedAt(l, f, s, if i <= j then i else i + 1);
  }

  // ------------------------------------------------------------ all the lists

  lemma FiledIsApart(freq: map<Key, int>, lists: map<int, seq<Key>>)
    requires Filed(freq, lists)
    ensures Apart(lists)
  {
  }

  /** Changing one list leaves the others linked when no pointer of theirs changed. */
  lemma LinkedFrame(l: Links, l': Links, lists: map<int, seq<Key>>, f: int, s: seq<Key>)
    requires Linked(l, lists) && Ring(l', f, s)
    requires forall g {:trigger lists[g]} :: g in lists && g != f ==> SamePointers(l, l', g, lists[g])
    ensures Linked(l', lists[f := s])
  {
    var lists' := lists[f := s];
    forall g | g in lists' ensures Ring(l', g, lists'[g]) {
      if g != f {
        RingFrame(l, l', g, lists[g]);
      }
    }
  }

  lemma NewListLinked(l: Links, lists: map<int, seq<Key>>, f: int)
    requires Linked(l, lists) && Apart(lists) && f !in lists
    ensures Linked(NewList(l, f), lists[f := []]) && Apart(lists[f := []])
  {
    var l', lists' := NewList(l, f), lists[f := []];
    assert JoinedAt(l', f, [], 0);
    LinkedFrame(l, l', lists, f, []);
    assert forall g {:trigger ListIn(lists', g)} :: ListIn(lists', g) == ListIn(lists, g);
    forall g ensures NoDup(ListIn(lists', g)) {
      assert NoDup(ListIn(lists, g));
    }
  }

  lemma NewNodeLinked(l: Links, lists: map<int, seq<Key>>, k: Key)
    requires Linked(l, lists) && forall g {:trigger ListIn(lists, g)} :: k !in ListIn(lists, g)
    ensures Linked(Links(l.next - {Node(k)}, l.pre - {Node(k)}), lists)
  {
    var l' := Links(l.next - {Node(k)}, l.pre - {Node(k)});
    forall g | g in lists ensures Ring(l', g, lists[g]) {
      assert k !in ListIn(lists, g);
      RingFrame(l, l', g, lists[g]);
    }
  }

  lemma AppendLinked(l: Links, lists: map<int, seq<Key>>, f: int, k: Key)
    requires Linked(l, lists) && Apart(lists) && f in lists
    requires forall g {:trigger ListIn(lists, g)} :: k !in ListIn(lists, g)
    ensures Tail(f) in l.pre && Linked(Appended(l, f, k), lists[f := lists[f] + [k]])
  {
    var s := lists[f];
    assert s == ListIn(lists, f);
    AppendRing(l, f, s, k);
    forall g | g in lists && g != f ensures SamePointers(l, Appended(l, f, k), g, lists[g]) {
      assert lists[g] == ListIn(lists, g);
      assert s != [] ==> s[|s| - 1] in ListIn(lists, f);
    }
    LinkedFrame(l, Appended(l, f, k), lists, f, s + [k]);
  }

  lemma RemoveLinked(l: Links, lists: map<int, seq<Key>>, f: int, k: Key)
    requires Linked(l, lists) && Apart(lists) && k in ListIn(lists, f)
    ensures Linked(Removed(l, k), lists[f := Without(ListIn(lists, f), k)])
  {
    var s := lists[f];
    assert s == ListIn(lists, f) && NoDup(ListIn(lists, f));
    var j: nat :| j < |s| && s[j] == k;
    RemoveRing(l, f, s, j);
    assert JoinedAt(l, f, s, j) && JoinedAt(l, f, s, j + 1);
    var before, after := NodeAt(f, s, j), NodeAt(f, s, j + 2);
    assert OnList(f, s, before) && OnList(f, s, after);
    forall g | g in lists && g != f ensures SamePointers(l, Removed(l, k), g, lists[g]) {
      OnOneList(lists, f, g, before);
      OnOneList(lists, f, g, after);
      OnOneList(lists, f, g, Node(k));
    }
    LinkedFrame(l, Removed(l, k), lists, f, Without(s, k));
  }

  lemma OnOneList(lists: map<int, seq<Key>>, f: int, g: int, a: Ref)
    requires Apart(lists) && f in lists && g in lists && f != g && OnList(f, lists[f], a)
    ensures !OnList(g, lists[g], a)
  {
    assert lists[f] == ListIn(lists, f) && lists[g] == ListIn(lists, g);
  }

  lemma RemoveApart(lists: map<int, seq<Key>>, f: int, k: Key)
    requires Apart(lists) && k in ListIn(lists, f)
    ensures var lists' := lists[f := Without(ListIn(lists, f), k)];
            Apart(lists') && forall g {:trigger ListIn(lists', g)} :: k !in ListIn(lists', g)
  {
    var lists' := lists[f := Without(ListIn(lists, f), k)];
    assert NoDup(ListIn(lists, f));
    WithoutIs(ListIn(lists, f), k);
    forall g, x | x in ListIn(lists', g) ensures x in ListIn(lists, g) && x != k {}
    forall g ensures NoDup(ListIn(lists', g)) {
      assert NoDup(ListIn(lists, g));
    }
  }

  /** `isEmpty` and `getFirstNode` read the list off its head sentinel. */
  lemma FirstNode(l: Links, lists: map<int, seq<Key>>, f: int)
    requires Linked(l, lists) && f in lists
    ensures Head(f) in l.next
    ensures l.next[Head(f)] == if lists[f] == [] then Tail(f) else Node(lists[f][0])
  {
    assert JoinedAt(l, f, lists[f], 0);
  }
}
