/** Python's `sorted(s, key=key)`: the stable ascending order by key. */
module Sorting {

  function Insert<T>(x: T, s: seq<T>, key: T -> real): seq<T> {
    if s == [] || key(x) <= key(s[0]) then [x] + s
    else [s[0]] + Insert(x, s[1..], key)
  }

  function Sort<T>(s: seq<T>, key: T -> real): seq<T> {
    if s == [] then [] else Insert(s[0], Sort(s[1..], key), key)
  }

  ghost predicate Ascending<T>(s: seq<T>, key: T -> real) {
    forall i, j :: 0 <= i < j < |s| ==> key(s[i]) <= key(s[j])
  }

  lemma {:induction false} InsertPermutes<T>(x: T, s: seq<T>, key: T -> real)
    ensures multiset(Insert(x, s, key)) == multiset(s) + multiset{x}
  {
    if !(s == [] || key(x) <= key(s[0])) {
      assert s == [s[0]] + s[1..];
      InsertPermutes(x, s[1..], key);
    }
  }

  lemma InsertMember<T>(x: T, s: seq<T>, key: T -> real, y: T)
    requires y in Insert(x, s, key)
    ensures y == x || y in s
  {
    InsertPermutes(x, s, key);
    assert y in multiset(Insert(x, s, key));
  }

  lemma AscendingCons<T>(x: T, s: seq<T>, key: T -> real)
    requires Ascending(s, key) && forall y | y in s :: key(x) <= key(y)
    ensures Ascending([x] + s, key)
  {
    forall i, j | 0 <= i < j < |[x] + s| ensures key(([x] + s)[i]) <= key(([x] + s)[j]) {
      assert s[j - 1] in s;
    }
  }

  lemma {:induction false} InsertAscends<T>(x: T, s: seq<T>, key: T -> real)
    requires Ascending(s, key)
    ensures Ascending(Insert(x, s, key), key)
  {
    if s == [] || key(x) <= key(s[0]) {
      AscendingCons(x, s, key);
    } else {
      InsertAscends(x, s[1..], key);
      forall y | y in Insert(x, s[1..], key) ensures key(s[0]) <= key(y) {
        InsertMember(x, s[1..], key, y);
      }
      AscendingCons(s[0], Insert(x, s[1..], key), key);
    }
  }

  /** The result is an ascending permutation. */
  lemma {:induction false} SortSorts<T>(s: seq<T>, key: T -> real)
    ensures Ascending(Sort(s, key), key)
    ensures multiset(Sort(s, key)) == multiset(s)
  {
    if s != [] {
      assert s == [s[0]] + s[1..];
      SortSorts(s[1..], key);
      InsertPermutes(s[0], Sort(s[1..], key), key);
      InsertAscends(s[0], Sort(s[1..], key), key);
    }
  }

  /** The elements with key k, in order. */
  function WithKey<T>(s: seq<T>, key: T -> real, k: real): seq<T> {
    if s == [] then []
    else if key(s[0]) == k then [s[0]] + WithKey(s[1..], key, k)
    else WithKey(s[1..], key, k)
  }

  lemma {:induction false} InsertStable<T>(x: T, s: seq<T>, key: T -> real, k: real)
    requires Ascending(s, key)
    ensures WithKey(Insert(x, s, key), key, k) == if key(x) == k then [x] + WithKey(s, key, k) else WithKey(s, key, k)
  {
    if s == [] || key(x) <= key(s[0]) {
      assert ([x] + s)[1..] == s;
    } else {
      InsertStable(x, s[1..], key, k);
      assert ([s[0]] + Insert(x, s[1..], key))[1..] == Insert(x, s[1..], key);
      if key(x) == k {
        AboveKeyEmpty(s, key, k);
      }
    }
  }

  lemma AboveKeyEmpty<T>(s: seq<T>, key: T -> real, k: real)
    requires s != [] && key(s[0]) < k
    ensures WithKey(s, key, k) == WithKey(s[1..], key, k)
  {
  }

  /** Elements with equal keys keep their order. */
  lemma {:induction false} SortStable<T>(s: seq<T>, key: T -> real, k: real)
    ensures WithKey(Sort(s, key), key, k) == WithKey(s, key, k)
  {
    if s != [] {
      SortStable(s[1..], key, k);
      SortSorts(s[1..], key);
      InsertStable(s[0], Sort(s[1..], key), key, k);
    }
  }

  /** What is already ascending stays as it is. */
  lemma {:induction false} SortFixed<T>(s: seq<T>, key: T -> real)
    requires Ascending(s, key)
    ensures Sort(s, key) == s
  {
    if s != [] {
      SortFixed(s[1..], key);
    }
  }

  // ------------------------------------------------------ where elements go

  /** t holds every element of s once, ascending, equal keys in the order of s; at says where each was. */
  ghost predicate SortedFrom<T>(s: seq<T>, t: seq<T>, key: T -> real, at: seq<nat>) {
    && |at| == |t| == |s|
    && (forall i | 0 <= i < |at| :: at[i] < |s| && t[i] == s[at[i]])
    && (forall i, j | 0 <= i < j < |at| :: at[i] != at[j])
    && (forall i, j | 0 <= i < j < |at| :: key(t[i]) <= key(t[j]) && (key(t[i]) == key(t[j]) ==> at[i] < at[j]))
  }

  lemma {:induction false} InsertPlace<T>(x: T, s: seq<T>, key: T -> real) returns (k: nat)
    requires Ascending(s, key)
    ensures k <= |s| && Insert(x, s, key) == s[..k] + [x] + s[k..]
    ensures forall i | 0 <= i < k :: key(s[i]) < key(x)
    ensures forall i | k <= i < |s| :: key(x) <= key(s[i])
  {
    if s == [] || key(x) <= key(s[0]) {
      k := 0;
      assert [x] + s == s[..0] + [x] + s[0..];
    } else {
      var j := InsertPlace(x, s[1..], key);
      k := j + 1;
      assert [s[0]] + (s[1..][..j] + [x] + s[1..][j..]) == s[..k] + [x] + s[k..];
    }
  }

  /** Room for a first element at place k of the sorted rest. */
  function Shifted(at: seq<nat>, k: nat): (r: seq<nat>)
    requires k <= |at|
    ensures |r| == |at| + 1
  {
    seq(|at| + 1, i requires 0 <= i <= |at| => if i < k then at[i] + 1 else if i == k then 0 else at[i - 1] + 1)
  }

  /** u is t with x at place k. */
  predicate Placed<T(==)>(u: seq<T>, t: seq<T>, x: T, k: nat) {
    && k <= |t| && |u| == |t| + 1 && u[k] == x
    && (forall i | 0 <= i < k :: u[i] == t[i])
    && (forall i | k < i < |u| :: u[i] == t[i - 1])
  }

  lemma ShiftedPlaces<T>(x: T, rest: seq<T>, t: seq<T>, u: seq<T>, at: seq<nat>, k: nat)
    requires |at| == |t| == |rest| && Placed(u, t, x, k)
    requires forall i | 0 <= i < |at| :: at[i] < |rest| && t[i] == rest[at[i]]
    ensures forall i | 0 <= i <= |at| :: Shifted(at, k)[i] <= |rest| && u[i] == ([x] + rest)[Shifted(at, k)[i]]
  {
  }

  lemma ShiftedDiffer(at: seq<nat>, k: nat)
    requires k <= |at| && forall i, j | 0 <= i < j < |at| :: at[i] != at[j]
    ensures forall i, j | 0 <= i < j <= |at| :: Shifted(at, k)[i] != Shifted(at, k)[j]
  {
  }

  lemma ShiftedOrder<T>(x: T, t: seq<T>, u: seq<T>, key: T -> real, at: seq<nat>, k: nat, i: nat, j: nat)
    requires |at| == |t| && Placed(u, t, x, k) && i < j <= |t|
    requires forall a, b | 0 <= a < b < |at| :: key(t[a]) <= key(t[b]) && (key(t[a]) == key(t[b]) ==> at[a] < at[b])
    requires forall a | 0 <= a < k :: key(t[a]) < key(x)
    requires forall a | k <= a < |t| :: key(x) <= key(t[a])
    ensures key(u[i]) <= key(u[j]) && (key(u[i]) == key(u[j]) ==> Shifted(at, k)[i] < Shifted(at, k)[j])
  {
  }

  lemma ShiftedFrom<T>(x: T, rest: seq<T>, t: seq<T>, u: seq<T>, key: T -> real, at: seq<nat>, k: nat)
    requires SortedFrom(rest, t, key, at) && Placed(u, t, x, k)
    requires forall i | 0 <= i < k :: key(t[i]) < key(x)
    requires forall i | k <= i < |t| :: key(x) <= key(t[i])
    ensures SortedFrom([x] + rest, u, key, Shifted(at, k))
  {
    ShiftedPlaces(x, rest, t, u, at, k);
    ShiftedDiffer(at, k);
    forall i, j | 0 <= i < j <= |at|
      ensures key(u[i]) <= key(u[j]) && (key(u[i]) == key(u[j]) ==> Shifted(at, k)[i] < Shifted(at, k)[j])
    {
      ShiftedOrder(x, t, u, key, at, k, i, j);
    }
  }

  /** The sort is a stable one. */
  lemma {:induction false} SortPlaces<T>(s: seq<T>, key: T -> real) returns (at: seq<nat>)
    ensures SortedFrom(s, Sort(s, key), key, at)
  {
    if s == [] {
      at := [];
    } else {
      at := SortPlaces(s[1..], key);
      at := InsertFrom(s[0], s[1..], Sort(s[1..], key), key, at);
      assert [s[0]] + s[1..] == s;
    }
  }

  lemma InsertFrom<T>(x: T, rest: seq<T>, t: seq<T>, key: T -> real, at: seq<nat>) returns (more: seq<nat>)
    requires SortedFrom(rest, t, key, at)
    ensures SortedFrom([x] + rest, Insert(x, t, key), key, more)
  {
    FromAscends(rest, t, key, at);
    var k := InsertPlace(x, t, key);
    ShiftedFrom(x, rest, t, Insert(x, t, key), key, at, k);
    more := Shifted(at, k);
  }

  lemma FromAscends<T>(rest: seq<T>, t: seq<T>, key: T -> real, at: seq<nat>)
    requires SortedFrom(rest, t, key, at)
    ensures Ascending(t, key)
  {
  }
}
