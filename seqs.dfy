/** Sequence helpers the store queries are built from: filtering, removal of
    duplicates, and an insertion sort on an integer key. */
module Seqs {

  /** No element occurs twice. */
  predicate NoDup<T(==)>(s: seq<T>) {
    forall i, j :: 0 <= i < j < |s| ==> s[i] != s[j]
  }

  /** The keys of `s` never decrease from left to right. */
  predicate SortedBy<T>(s: seq<T>, key: T -> int) {
    forall i, j :: 0 <= i < j < |s| ==> key(s[i]) <= key(s[j])
  }

  /** The elements of `s` that satisfy `p`, in their original order. */
  function Filter<T(==,!new)>(s: seq<T>, p: T -> bool): (r: seq<T>)
    ensures forall x :: x in r <==> x in s && p(x)
    ensures multiset(r) <= multiset(s)
  {
    if s == [] then []
    else
      assert s == [s[0]] + s[1..];
      (if p(s[0]) then [s[0]] else []) + Filter(s[1..], p)
  }

  /** The elements of `s` with later repetitions dropped. */
  function Dedup<T(==,!new)>(s: seq<T>): (r: seq<T>)
    ensures forall x :: x in r <==> x in s
    ensures NoDup(r)
  {
    if s == [] then []
    else
      var d := Dedup(s[..|s| - 1]);
      assert s == s[..|s| - 1] + [s[|s| - 1]];
      if s[|s| - 1] in d then d else d + [s[|s| - 1]]
  }

  /** Puts `x` in front of the first element of `s` whose key is not smaller. */
  function Insert<T(==,!new)>(x: T, s: seq<T>, key: T -> int): (r: seq<T>)
    ensures multiset(r) == multiset(s) + multiset{x}
    ensures forall y :: y in r <==> y == x || y in s
  {
    if s == [] || key(x) <= key(s[0]) then [x] + s
    else
      assert s == [s[0]] + s[1..];
      [s[0]] + Insert(x, s[1..], key)
  }

  /** Insertion sort by `key`; elements with equal keys keep their order. */
  function SortBy<T(==,!new)>(s: seq<T>, key: T -> int): (r: seq<T>)
    ensures multiset(r) == multiset(s)
    ensures forall x :: x in r <==> x in s
    ensures SortedBy(r, key)
  {
    if s == [] then []
    else
      assert s == [s[0]] + s[1..];
      InsertKeepsSorted(s[0], SortBy(s[1..], key), key);
      Insert(s[0], SortBy(s[1..], key), key)
  }

  lemma {:induction false} InsertKeepsSorted<T(!new)>(x: T, s: seq<T>, key: T -> int)
    requires SortedBy(s, key)
    ensures SortedBy(Insert(x, s, key), key)
  {
    if s != [] && key(x) > key(s[0]) {
      var t := Insert(x, s[1..], key);
      InsertKeepsSorted(x, s[1..], key);
      forall j | 0 <= j < |t| ensures key(s[0]) <= key(t[j]) {
        assert t[j] in t;
        if t[j] != x {
          var k :| 0 <= k < |s[1..]| && s[1..][k] == t[j];
          assert s[k + 1] == t[j];
        }
      }
    }
  }

  /** In a sequence sorted by `key`, whatever lies beyond the first `n`
      elements has a key no smaller than any of theirs. */
  lemma BeyondPrefix<T>(s: seq<T>, n: nat, key: T -> int)
    requires SortedBy(s, key) && n <= |s|
    ensures forall x :: x in s && x !in s[..n] ==> forall i :: 0 <= i < n ==> key(s[i]) <= key(x)
  {
    forall x | x in s && x !in s[..n] ensures forall i :: 0 <= i < n ==> key(s[i]) <= key(x) {
      var k :| 0 <= k < |s| && s[k] == x;
      assert forall j :: 0 <= j < n ==> s[..n][j] == s[j];
      assert k >= n;
    }
  }

  /** SQL `LIMIT n`: the first `n` elements, or all of them when `n` is
      negative. */
  function Limit<T>(s: seq<T>, n: int): seq<T> {
    if 0 <= n < |s| then s[..n] else s
  }

  /** `Limit` keeps a prefix: no element it drops is ranked before one it
      keeps, and it drops something only when it returns exactly `n`. */
  lemma LimitKeepsPrefix<T>(s: seq<T>, n: int, key: T -> int)
    requires SortedBy(s, key)
    ensures var r := Limit(s, n);
      && multiset(r) <= multiset(s)
      && (forall i :: 0 <= i < |r| ==> r[i] in s)
      && SortedBy(r, key)
      && (n >= 0 ==> |r| <= n)
      && (forall x :: x in s && x !in r ==> 0 <= n == |r| && forall i :: 0 <= i < |r| ==> key(r[i]) <= key(x))
  {
    if 0 <= n < |s| {
      BeyondPrefix(s, n, key);
      assert s == s[..n] + s[n..];
      assert forall i :: 0 <= i < n ==> s[..n][i] == s[i];
    }
  }

  /** A sequence with no more elements than a sub-multiset allows is no
      longer than the sequence it was drawn from. */
  lemma SubMultisetShorter<T>(a: seq<T>, b: seq<T>)
    requires multiset(a) <= multiset(b)
    ensures |a| <= |b|
  {
    var d := multiset(b) - multiset(a);
    assert multiset(b) == multiset(a) + d;
    assert |multiset(b)| == |multiset(a)| + |d|;
  }

  /** A sorted sequence of at most two elements holding `x` and `y`, with
      `x` ranked strictly before `y`, is `[x, y]`. */
  lemma TwoInOrder<T>(r: seq<T>, x: T, y: T, key: T -> int)
    requires x in r && y in r && |r| <= 2
    requires SortedBy(r, key) && key(x) < key(y)
    ensures r == [x, y]
  {
    var i :| 0 <= i < |r| && r[i] == x;
    var j :| 0 <= j < |r| && r[j] == y;
    assert i < j;
  }

  lemma CountOfNoDup<T>(s: seq<T>, x: T)
    requires NoDup(s)
    ensures multiset(s)[x] <= 1
  {
    if s != [] {
      assert s == [s[0]] + s[1..];
      CountOfNoDup(s[1..], x);
      if x == s[0] {
        assert x !in s[1..];
      }
    }
  }

  lemma RepeatCountsTwice<T>(s: seq<T>, i: nat, j: nat)
    requires i < j < |s| && s[i] == s[j]
    ensures multiset(s)[s[i]] >= 2
  {
    assert s == s[..j] + s[j..];
    assert s[i] in s[..j];
    assert s[j] in s[j..];
  }

  /** A sequence whose elements all occur in a duplicate-free one, at most as
      often, is duplicate-free itself. */
  lemma NoDupOfSubMultiset<T>(a: seq<T>, b: seq<T>)
    requires multiset(a) <= multiset(b) && NoDup(b)
    ensures NoDup(a)
  {
    forall i, j | 0 <= i < j < |a| ensures a[i] != a[j] {
      if a[i] == a[j] {
        RepeatCountsTwice(a, i, j);
        CountOfNoDup(b, a[i]);
        assert false;
      }
    }
  }
}
