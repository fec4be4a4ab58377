/** Ordering by a pair of integers, compared lexicographically.

Every ordering in the system has this shape: allocation candidates by (rank, contract id), stays by
(check-in, id), search results by (points, check-in), SQL groups by (contract, use year). */
module Sorting {

  predicate Less(a: (int, int), b: (int, int)) {
    a.0 < b.0 || (a.0 == b.0 && a.1 < b.1)
  }

  ghost predicate Sorted<T>(key: T -> (int, int), s: seq<T>) {
    forall i, j :: 0 <= i < j < |s| ==> !Less(key(s[j]), key(s[i]))
  }

  ghost predicate StrictlySorted<T>(key: T -> (int, int), s: seq<T>) {
    forall i, j :: 0 <= i < j < |s| ==> Less(key(s[i]), key(s[j]))
  }

  ghost predicate DistinctKeys<T>(key: T -> (int, int), s: seq<T>) {
    forall i, j :: 0 <= i < j < |s| ==> key(s[i]) != key(s[j])
  }

  /** Puts x after every element that is not greater than it. */
  function Insert<T>(key: T -> (int, int), x: T, s: seq<T>): (r: seq<T>)
    ensures multiset(r) == multiset(s) + multiset{x}
  {
    if s == [] then [x]
    else if Less(key(x), key(s[0])) then [x] + s
    else
      assert s == [s[0]] + s[1..];
      [s[0]] + Insert(key, x, s[1..])
  }

  lemma {:induction false} InsertKeepsOrder<T>(key: T -> (int, int), x: T, s: seq<T>)
    requires Sorted(key, s)
    ensures Sorted(key, Insert(key, x, s))
  {
    if s != [] && !Less(key(x), key(s[0])) {
      InsertKeepsOrder(key, x, s[1..]);
      var rest := Insert(key, x, s[1..]);
      forall i | 0 <= i < |rest| ensures !Less(key(rest[i]), key(s[0])) {
        assert rest[i] in multiset(rest);
        if rest[i] != x {
          assert rest[i] in s[1..];
        }
      }
    }
  }

  /** The reference order: what ORDER BY returns when the keys are distinct. */
  function SortBy<T>(key: T -> (int, int), s: seq<T>): (r: seq<T>)
    ensures multiset(r) == multiset(s)
    ensures Sorted(key, r)
  {
    if s == [] then []
    else
      assert s == s[..|s| - 1] + [s[|s| - 1]];
      var front := SortBy(key, s[..|s| - 1]);
      InsertKeepsOrder(key, s[|s| - 1], front);
      Insert(key, s[|s| - 1], front)
  }

  /** sort.Slice: some permutation that is sorted. Callers know no more than that, so nothing they
      prove can rest on the order of elements with equal keys. */
  method SortSlice<T>(key: T -> (int, int), s: seq<T>) returns (r: seq<T>)
    ensures multiset(r) == multiset(s)
    ensures Sorted(key, r)
  {
    r := [];
    for i := 0 to |s|
      invariant multiset(r) == multiset(s[..i])
      invariant Sorted(key, r)
    {
      InsertKeepsOrder(key, s[i], r);
      r := Insert(key, s[i], r);
      assert s[..i + 1] == s[..i] + [s[i]];
    }
    assert s[..|s|] == s;
  }

  lemma TwiceInMultiset<T>(s: seq<T>, i: nat, j: nat)
    requires i < j < |s| && s[i] == s[j]
    ensures multiset(s)[s[i]] >= 2
  {
    assert s == s[..j] + s[j..];
    assert s[i] in s[..j] && s[j] in s[j..];
  }

  lemma {:induction false} OnceInMultiset<T>(s: seq<T>, x: T)
    requires forall i, j :: 0 <= i < j < |s| ==> s[i] != s[j]
    ensures multiset(s)[x] <= 1
  {
    if s != [] {
      OnceInMultiset(s[1..], x);
      assert s == [s[0]] + s[1..];
    }
  }

  /** A sorted permutation of elements with distinct keys is strictly sorted. */
  lemma PermutationIsStrict<T>(key: T -> (int, int), s: seq<T>, r: seq<T>)
    requires multiset(r) == multiset(s) && Sorted(key, r) && DistinctKeys(key, s)
    ensures StrictlySorted(key, r)
  {
    forall i, j | 0 <= i < j < |r| ensures Less(key(r[i]), key(r[j])) {
      if key(r[i]) == key(r[j]) {
        assert r[i] in multiset(s) && r[j] in multiset(s);
        var p :| 0 <= p < |s| && s[p] == r[i];
        var q :| 0 <= q < |s| && s[q] == r[j];
        assert p == q;
        TwiceInMultiset(r, i, j);
        OnceInMultiset(s, r[i]);
      }
    }
  }

  /** Strictly sorted sequences are determined by their elements. */
  lemma {:induction false} StrictUnique<T>(key: T -> (int, int), a: seq<T>, b: seq<T>)
    requires StrictlySorted(key, a) && StrictlySorted(key, b)
    requires forall x :: x in a ==> x in b
    requires forall x :: x in b ==> x in a
    ensures a == b
  {
    assert (a != [] ==> a[0] in b) && (b != [] ==> b[0] in a);
    if a != [] {
      var i :| 0 <= i < |b| && b[i] == a[0];
      var j :| 0 <= j < |a| && a[j] == b[0];
      assert i == 0 && j == 0;
      forall x | x in a[1..] ensures x in b[1..] { assert x in a; }
      forall x | x in b[1..] ensures x in a[1..] { assert x in b; }
      StrictUnique(key, a[1..], b[1..]);
      assert a == [a[0]] + a[1..] && b == [b[0]] + b[1..];
    }
  }
}
