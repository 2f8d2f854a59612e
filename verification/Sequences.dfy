/** Concatenations and slices that the solver does not regroup by itself. */
module Sequences {
  lemma Regroup<T>(a: seq<T>, b: seq<T>, c: seq<T>)
    ensures (a + b) + c == a + (b + c)
  {
  }

  lemma RegroupFour<T>(a: seq<T>, b: seq<T>, c: seq<T>, d: seq<T>)
    ensures a + b + c + d == a + (b + (c + d))
  {
  }

  lemma TakeMore<T>(s: seq<T>, taken: nat, n: nat)
    requires taken + n <= |s|
    ensures s[..taken] + s[taken..][..n] == s[..taken + n]
  {
  }

  lemma SamePermutedPrefix<T>(s: seq<T>, t: seq<T>, k: nat)
    requires |s| == |t| && k <= |s| && multiset(s) == multiset(t) && s[k..] == t[k..]
    ensures multiset(s[..k]) == multiset(t[..k])
  {
    assert s == s[..k] + s[k..] && t == t[..k] + t[k..];
    assert multiset(s[..k]) + multiset(s[k..]) == multiset(t[..k]) + multiset(t[k..]);
    assert multiset(s[..k]) == multiset(s) - multiset(s[k..]);
    assert multiset(t[..k]) == multiset(t) - multiset(t[k..]);
  }

  ghost predicate OrderedBy<T(!new)>(s: seq<T>, before: (T, T) -> bool) {
    forall i, j :: 0 <= i < j < |s| ==> before(s[i], s[j])
  }

  lemma InsertedOrdered<T(!new)>(s: seq<T>, x: T, p: nat, before: (T, T) -> bool)
    requires OrderedBy(s, before) && p <= |s|
    requires forall i :: 0 <= i < p ==> before(s[i], x)
    requires forall i :: p <= i < |s| ==> before(x, s[i])
    ensures OrderedBy(s[..p] + ([x] + s[p..]), before)
  {
    var t := s[..p] + ([x] + s[p..]);
    assert forall i :: 0 <= i < |t| ==> t[i] == (if i < p then s[i] else if i == p then x else s[i - 1]);
  }
}
