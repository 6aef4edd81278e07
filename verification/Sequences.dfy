/**
 Sequences without repetition, and dropping one element.
 */
module Sequences {

  ghost predicate NoDup<T>(s: seq<T>) {
    forall i, j :: 0 <= i < j < |s| ==> s[i] != s[j]
  }

  function Without<T(==)>(s: seq<T>, x: T): seq<T> {
    if s == [] then [] else if s[0] == x then s[1..] else [s[0]] + Without(s[1..], x)
  }

  lemma {:induction false} WithoutIs<T>(s: seq<T>, x: T)
    requires NoDup(s)
    ensures NoDup(Without(s, x))
    ensures forall y :: y in Without(s, x) <==> y in s && y != x
  {
    if s != [] {
      var t := s[1..];
      assert s == [s[0]] + t;
      assert forall i :: 0 <= i < |t| ==> t[i] == s[i + 1];
      assert s[0] !in t;
      WithoutIs(t, x);
    }
  }

  lemma {:induction false} WithoutAt<T>(s: seq<T>, j: nat)
    requires NoDup(s) && j < |s|
    ensures Without(s, s[j]) == s[..j] + s[j + 1..]
  {
    if j > 0 {
      var t := s[1..];
      assert NoDup(t) by { assert forall i :: 0 <= i < |t| ==> t[i] == s[i + 1]; }
      WithoutAt(t, j - 1);
      assert s[0] != s[j] && t[j - 1] == s[j];
      assert t[..j - 1] == s[1..j] && t[j..] == s[j + 1..];
      assert [s[0]] + s[1..j] == s[..j];
    }
  }
}
