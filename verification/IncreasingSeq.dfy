/** Strictly increasing sequences of numbers, and sequences that are rearrangements of them. */
module IncreasingSeq {

  ghost predicate Increasing(s: seq<nat>) {
    forall i, j :: 0 <= i < j < |s| ==> s[i] < s[j]
  }

  /** Increasing sequences with the same elements are the same. */
  lemma {:induction false} IncreasingUnique(a: seq<nat>, b: seq<nat>)
    requires Increasing(a) && Increasing(b) && forall x :: x in a <==> x in b
    ensures a == b
  {
    assert b != [] ==> b[0] in b;
    if a != [] {
      assert a[|a| - 1] in a && a[|a| - 1] in b;
      assert b[|b| - 1] in b && b[|b| - 1] in a;
      var m := a[|a| - 1];
      assert m == b[|b| - 1];
      var c, d := a[..|a| - 1], b[..|b| - 1];
      forall x
        ensures x in c <==> x in d
      {
        assert x in a <==> x in c || x == m;
        assert x in b <==> x in d || x == m;
        assert m !in c && m !in d;
      }
      IncreasingUnique(c, d);
    }
  }

  lemma {:induction false} OccursOnce(s: seq<nat>, x: nat)
    requires Increasing(s)
    ensures multiset(s)[x] <= 1
  {
    if s != [] {
      var t := s[..|s| - 1];
      assert s == t + [s[|s| - 1]];
      OccursOnce(t, x);
      if x == s[|s| - 1] {
        assert x !in t;
        assert x !in multiset(t);
      }
    }
  }

  lemma RepeatCounts(t: seq<nat>, i: nat, j: nat)
    requires i < j < |t| && t[i] == t[j]
    ensures multiset(t)[t[i]] >= 2
  {
    var u := t[..j];
    assert t == u + t[j..] && t[j..] == [t[j]] + t[j + 1..];
    assert u[i] in multiset(u);
    assert multiset(t) == multiset(u) + multiset([t[j]]) + multiset(t[j + 1..]);
  }

  /** A rearrangement of an increasing sequence repeats nothing. */
  lemma NoRepeats(s: seq<nat>, t: seq<nat>, i: nat, j: nat)
    requires Increasing(s) && multiset(s) == multiset(t) && i < j < |t|
    ensures t[i] != t[j]
  {
    OccursOnce(s, t[i]);
    if t[i] == t[j] { RepeatCounts(t, i, j); }
  }

  lemma SameElements<T>(s: seq<T>, t: seq<T>, x: T)
    requires multiset(s) == multiset(t)
    ensures x in s <==> x in t
  {
    assert x in s <==> x in multiset(s);
    assert x in t <==> x in multiset(t);
  }
}
