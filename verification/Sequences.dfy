/** Facts about sequences used across the models. */
module Sequences {

  /** Taking one occurrence out of a sequence takes it out of the multiset. */
  lemma MultisetWithout<T>(s: seq<T>, i: nat)
    requires i < |s|
    ensures multiset(s[..i] + s[i + 1..]) == multiset(s) - multiset{s[i]}
  {
    assert s == s[..i] + [s[i]] + s[i + 1..];
    assert multiset(s) == multiset(s[..i]) + multiset{s[i]} + multiset(s[i + 1..]);
  }

  lemma SoleMember<T>(s: seq<T>, x: T)
    requires |s| <= 1 && x in s
    ensures |s| == 1 && x == s[0]
  {
  }

  lemma FrontAndLast<T>(s: seq<T>)
    requires s != []
    ensures s[..|s| - 1] + [s[|s| - 1]] == s
  {
  }

  /** The same with the parts named. */
  lemma Parted<T>(s: seq<T>) returns (front: seq<T>, last: T)
    requires s != []
    ensures s == front + [last]
  {
    front, last := s[..|s| - 1], s[|s| - 1];
  }

  /** f(k) has k elements, and f(k + 1) adds one at its end. */
  ghost predicate GrowsAt<T>(f: nat -> seq<T>, k: nat) {
    |f(k)| == k && |f(k + 1)| == k + 1 && f(k + 1)[..k] == f(k)
  }

  /** What is grown one element at a time begins with each of its earlier forms. */
  lemma {:induction false} GrownPrefix<T>(f: nat -> seq<T>, m: nat, n: nat)
    requires m <= n && forall k: nat :: GrowsAt(f, k)
    ensures |f(m)| == m && |f(n)| == n && f(n)[..m] == f(m)
  {
    assert GrowsAt(f, n);
    if m < n {
      GrownPrefix(f, m, n - 1);
      assert GrowsAt(f, n - 1);
      assert f(n)[..n - 1][..m] == f(n)[..m];
    }
  }
}
