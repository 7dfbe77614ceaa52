/** `Array.prototype.sort` with a numeric comparator `(a, b) => key(a) - key(b)`:
    a stable sort into ascending key order.  A descending comparator
    `(a, b) => key(b) - key(a)` is the same sort on the negated key. */
module Sorting {
  import opened Prelude

  predicate SortedBy<T>(s: seq<T>, key: T -> real) {
    forall i, j :: 0 <= i < j < |s| ==> key(s[i]) <= key(s[j])
  }

  /** The elements of `s` whose key is `k`, in order. */
  function WithKey<T>(s: seq<T>, key: T -> real, k: real): (r: seq<T>)
    ensures forall x :: x in r ==> x in s && key(x) == k
  {
    if s == [] then []
    else
      var rest := WithKey(s[..|s| - 1], key, k);
      if key(s[|s| - 1]) == k then rest + [s[|s| - 1]] else rest
  }

  /** One insertion step: `x` goes after every element whose key is not
      larger than its own, which keeps equal keys in arrival order. */
  function InsertBy<T>(x: T, s: seq<T>, key: T -> real): (r: seq<T>)
    ensures |r| == |s| + 1
    ensures multiset(r) == multiset(s) + multiset{x}
  {
    if s == [] || key(s[|s| - 1]) <= key(x) then s + [x]
    else
      assert s == s[..|s| - 1] + [s[|s| - 1]];
      InsertBy(x, s[..|s| - 1], key) + [s[|s| - 1]]
  }

  /** Insertion sort: the outcome of a stable sort. */
  function SortBy<T>(s: seq<T>, key: T -> real): (r: seq<T>)
    ensures |r| == |s|
    ensures multiset(r) == multiset(s)
  {
    if s == [] then []
    else
      assert s == s[..|s| - 1] + [s[|s| - 1]];
      InsertBy(s[|s| - 1], SortBy(s[..|s| - 1], key), key)
  }

  lemma {:induction false} InsertSorted<T>(x: T, s: seq<T>, key: T -> real)
    requires SortedBy(s, key)
    ensures SortedBy(InsertBy(x, s, key), key)
  {
    if s != [] && key(s[|s| - 1]) > key(x) {
      var s', last := s[..|s| - 1], s[|s| - 1];
      InsertSorted(x, s', key);
      var r' := InsertBy(x, s', key);
      var r := r' + [last];
      assert r == InsertBy(x, s, key);
      forall i | 0 <= i < |r'|
        ensures key(r'[i]) <= key(last)
      {
        assert r'[i] in multiset(s') + multiset{x};
        if r'[i] != x {
          assert r'[i] in s';
        }
      }
      forall i, j | 0 <= i < j < |r|
        ensures key(r[i]) <= key(r[j])
      {
        if j < |r'| {
          assert r[i] == r'[i] && r[j] == r'[j];
        } else {
          assert r[i] == r'[i] && r[j] == last;
        }
      }
    }
  }

  /** The sort leaves its output in ascending key order. */
  lemma {:induction false} SortSorted<T>(s: seq<T>, key: T -> real)
    ensures SortedBy(SortBy(s, key), key)
  {
    if s != [] {
      SortSorted(s[..|s| - 1], key);
      InsertSorted(s[|s| - 1], SortBy(s[..|s| - 1], key), key);
    }
  }

  lemma {:induction false} WithKeyAppend<T>(s: seq<T>, x: T, key: T -> real, k: real)
    ensures WithKey(s + [x], key, k) == if key(x) == k then WithKey(s, key, k) + [x] else WithKey(s, key, k)
  {
    assert (s + [x])[..|s|] == s;
  }

  lemma {:induction false} InsertWithKey<T>(x: T, s: seq<T>, key: T -> real, k: real)
    ensures WithKey(InsertBy(x, s, key), key, k)
            == if key(x) == k then WithKey(s, key, k) + [x] else WithKey(s, key, k)
  {
    if s == [] || key(s[|s| - 1]) <= key(x) {
      WithKeyAppend(s, x, key, k);
    } else {
      var s', last := s[..|s| - 1], s[|s| - 1];
      var r' := InsertBy(x, s', key);
      assert InsertBy(x, s, key) == r' + [last];
      assert WithKey(s, key, k) == if key(last) == k then WithKey(s', key, k) + [last] else WithKey(s', key, k);
      InsertWithKey(x, s', key, k);
      WithKeyAppend(r', last, key, k);
      if key(x) == k {
        assert key(last) != k;
      }
    }
  }

  /** Stability: the elements sharing one key keep their relative order. */
  lemma {:induction false} SortStable<T>(s: seq<T>, key: T -> real, k: real)
    ensures WithKey(SortBy(s, key), key, k) == WithKey(s, key, k)
  {
    if s != [] {
      var s', last := s[..|s| - 1], s[|s| - 1];
      SortStable(s', key, k);
      InsertWithKey(last, SortBy(s', key), key, k);
    }
  }

  /** The first element with key `k` heads the elements with that key. */
  lemma {:induction false} WithKeyHead<T>(s: seq<T>, key: T -> real, k: real, i: nat)
    requires i < |s| && key(s[i]) == k
    requires forall j :: 0 <= j < i ==> key(s[j]) != k
    ensures WithKey(s, key, k) != [] && WithKey(s, key, k)[0] == s[i]
  {
    var s' := s[..|s| - 1];
    if i < |s| - 1 {
      WithKeyHead(s', key, k, i);
    } else {
      WithKeyNone(s', key, k);
    }
  }

  /** No element has key `k`: nothing is kept. */
  lemma {:induction false} WithKeyNone<T>(s: seq<T>, key: T -> real, k: real)
    requires forall j :: 0 <= j < |s| ==> key(s[j]) != k
    ensures WithKey(s, key, k) == []
  {
    if s != [] {
      WithKeyNone(s[..|s| - 1], key, k);
    }
  }

  /** The head of a sorted non-empty sequence has the least key, and it is
      the first element of the input with that key: every element before
      it has a larger key. */
  lemma SortHead<T>(s: seq<T>, key: T -> real)
    requires s != []
    ensures var r := SortBy(s, key);
            (forall x :: x in s ==> key(r[0]) <= key(x))
            && (exists i :: 0 <= i < |s| && s[i] == r[0]
                  && forall j :: 0 <= j < i ==> key(s[j]) > key(r[0]))
  {
    var r := SortBy(s, key);
    SortSorted(s, key);
    forall x | x in s
      ensures key(r[0]) <= key(x)
    {
      assert x in multiset(r);
      var j :| 0 <= j < |r| && r[j] == x;
    }
    var k := key(r[0]);
    SortStable(s, key, k);
    WithKeyHead(r, key, k, 0);
    var w := WithKey(s, key, k);
    assert w[0] in s;
    var i :| 0 <= i < |s| && s[i] == w[0];
    var i0 := FirstWithKey(s, key, k, i);
    WithKeyHead(s, key, k, i0);
    forall j | 0 <= j < i0
      ensures key(s[j]) > k
    {
      assert s[j] in s;
    }
  }

  /** The least index holding key `k`, given one index that holds it. */
  lemma {:induction false} FirstWithKey<T>(s: seq<T>, key: T -> real, k: real, i: nat) returns (i0: nat)
    requires i < |s| && key(s[i]) == k
    ensures i0 <= i && key(s[i0]) == k
    ensures forall j :: 0 <= j < i0 ==> key(s[j]) != k
  {
    if exists j :: 0 <= j < i && key(s[j]) == k {
      var j :| 0 <= j < i && key(s[j]) == k;
      i0 := FirstWithKey(s, key, k, j);
    } else {
      i0 := i;
    }
  }

  /** The last element with key `k` ends the elements with that key. */
  lemma {:induction false} WithKeyTail<T>(s: seq<T>, key: T -> real, k: real, i: nat)
    requires i < |s| && key(s[i]) == k
    requires forall j :: i < j < |s| ==> key(s[j]) != k
    ensures WithKey(s, key, k) != [] && WithKey(s, key, k)[|WithKey(s, key, k)| - 1] == s[i]
  {
    if i < |s| - 1 {
      WithKeyTail(s[..|s| - 1], key, k, i);
    }
  }

  /** The greatest index holding key `k`, given one index that holds it. */
  lemma {:induction false} LastWithKey<T>(s: seq<T>, key: T -> real, k: real, i: nat) returns (i1: nat)
    requires i < |s| && key(s[i]) == k
    ensures i <= i1 < |s| && key(s[i1]) == k
    ensures forall j :: i1 < j < |s| ==> key(s[j]) != k
    decreases |s| - i
  {
    if exists j :: i < j < |s| && key(s[j]) == k {
      var j :| i < j < |s| && key(s[j]) == k;
      i1 := LastWithKey(s, key, k, j);
    } else {
      i1 := i;
    }
  }

  /** The last element of a sorted non-empty sequence has the greatest
      key, and it is the last element of the input with that key: every
      element after it has a smaller key. */
  lemma SortLast<T>(s: seq<T>, key: T -> real)
    requires s != []
    ensures var r := SortBy(s, key);
            (forall x :: x in s ==> key(x) <= key(r[|r| - 1]))
            && (exists i :: 0 <= i < |s| && s[i] == r[|r| - 1]
                  && forall j :: i < j < |s| ==> key(s[j]) < key(r[|r| - 1]))
  {
    var r := SortBy(s, key);
    var last := r[|r| - 1];
    SortSorted(s, key);
    forall x | x in s
      ensures key(x) <= key(last)
    {
      assert x in multiset(r);
      var j :| 0 <= j < |r| && r[j] == x;
    }
    var k := key(last);
    SortStable(s, key, k);
    WithKeyTail(r, key, k, |r| - 1);
    var w := WithKey(s, key, k);
    assert w[|w| - 1] in s;
    var i :| 0 <= i < |s| && s[i] == w[|w| - 1];
    var i1 := LastWithKey(s, key, k, i);
    WithKeyTail(s, key, k, i1);
    forall j | i1 < j < |s|
      ensures key(s[j]) < k
    {
      assert s[j] in s;
    }
  }

  /** Cutting a sequence short keeps a prefix of each key's elements. */
  lemma {:induction false} WithKeyPrefix<T>(s: seq<T>, n: nat, key: T -> real, k: real)
    requires n <= |s|
    ensures WithKey(s[..n], key, k) <= WithKey(s, key, k)
  {
    if n < |s| {
      var s' := s[..|s| - 1];
      WithKeyPrefix(s', n, key, k);
      assert s'[..n] == s[..n];
      assert WithKey(s', key, k) <= WithKey(s, key, k);
    } else {
      assert s[..n] == s;
    }
  }
}
