/** Option type and small sequence helpers shared by every module. */
module Prelude {

  datatype Option<+T> = None | Some(value: T)

  /** `Array.prototype.filter`: the elements that satisfy `p`, in order. */
  function Filter<T(!new)>(s: seq<T>, p: T -> bool): (r: seq<T>)
    ensures |r| <= |s|
    ensures forall x :: x in r <==> x in s && p(x)
  {
    if s == [] then []
    else
      var rest := Filter(s[..|s| - 1], p);
      assert s == s[..|s| - 1] + [s[|s| - 1]];
      if p(s[|s| - 1]) then rest + [s[|s| - 1]] else rest
  }

  /** `a` is `b` with some elements left out, the rest kept in order. */
  predicate IsSubsequence<T(==)>(a: seq<T>, b: seq<T>)
    decreases |b|
  {
    if a == [] then true
    else if b == [] then false
    else if a[|a| - 1] == b[|b| - 1] then IsSubsequence(a[..|a| - 1], b[..|b| - 1])
    else IsSubsequence(a, b[..|b| - 1])
  }

  lemma {:induction false} FilterIsSubsequence<T(!new)>(s: seq<T>, p: T -> bool)
    ensures IsSubsequence(Filter(s, p), s)
  {
    if s != [] {
      FilterIsSubsequence(s[..|s| - 1], p);
      var rest := Filter(s[..|s| - 1], p);
      if !p(s[|s| - 1]) {
        SubsequenceOfLonger(rest, s[..|s| - 1], s[|s| - 1]);
      }
    }
  }

  lemma {:induction false} SubsequenceOfLonger<T>(a: seq<T>, b: seq<T>, x: T)
    requires IsSubsequence(a, b)
    ensures IsSubsequence(a, b + [x])
    decreases |b|, 1
  {
    if a != [] {
      assert (b + [x])[..|b|] == b;
      if a[|a| - 1] == x {
        SubsequenceDropLast(a, b);
      }
    }
  }

  lemma {:induction false} SubsequenceDropLast<T>(a: seq<T>, b: seq<T>)
    requires a != [] && IsSubsequence(a, b)
    ensures IsSubsequence(a[..|a| - 1], b)
    decreases |b|, 0
  {
    var a', b' := a[..|a| - 1], b[..|b| - 1];
    if a[|a| - 1] == b[|b| - 1] {
      if a' != [] {
        SubsequenceDropLast(a', b');
        SubsequenceOfLonger(a'[..|a'| - 1], b', b[|b| - 1]);
        assert b' + [b[|b| - 1]] == b;
      }
    } else {
      SubsequenceDropLast(a, b');
      SubsequenceOfLonger(a', b', b[|b| - 1]);
      assert b' + [b[|b| - 1]] == b;
    }
  }

  function Sum(s: seq<int>): int {
    if s == [] then 0 else Sum(s[..|s| - 1]) + s[|s| - 1]
  }

  /** The first `n` elements, or all of them when there are fewer:
      `Array.prototype.slice(0, n)`. */
  function Take<T>(s: seq<T>, n: nat): (r: seq<T>)
    ensures |r| == if |s| < n then |s| else n
    ensures r == s[..|r|]
  {
    if |s| <= n then s else s[..n]
  }

  predicate Distinct<T(==)>(s: seq<T>) {
    forall i, j :: 0 <= i < j < |s| ==> s[i] != s[j]
  }

  /** The distinct elements of `s` in order of first occurrence: the key
      order of a `Map` or `Set` filled from `s`. */
  function Dedup<T(==,!new)>(s: seq<T>): (r: seq<T>)
    ensures forall x :: x in r <==> x in s
    ensures |r| <= |s|
  {
    if s == [] then []
    else
      var rest := Dedup(s[..|s| - 1]);
      assert forall x :: x in s <==> x in s[..|s| - 1] || x == s[|s| - 1] by {
        assert s == s[..|s| - 1] + [s[|s| - 1]];
      }
      if s[|s| - 1] in rest then rest else rest + [s[|s| - 1]]
  }

  /** A repetition-free sequence has as many elements as its set. */
  lemma {:induction false} DistinctCardinality<T>(s: seq<T>)
    requires Distinct(s)
    ensures |set x | x in s| == |s|
  {
    if s != [] {
      var s' := s[..|s| - 1];
      DistinctCardinality(s');
      assert (set x | x in s) == (set x | x in s') + {s[|s| - 1]} by {
        assert s == s' + [s[|s| - 1]];
      }
    }
  }

  /** `Dedup` keeps each element once. */
  lemma {:induction false} DedupDistinct<T(!new)>(s: seq<T>)
    ensures Distinct(Dedup(s))
  {
    if s != [] {
      DedupDistinct(s[..|s| - 1]);
    }
  }

  lemma DedupAppend<T(!new)>(s: seq<T>, x: T)
    ensures Dedup(s + [x]) == if x in Dedup(s) then Dedup(s) else Dedup(s) + [x]
  {
    assert (s + [x])[..|s|] == s;
  }

  /** How often each element occurs: the table a loop fills with
      `table[x] = (table[x] || 0) + 1`. */
  function CountTable<T(!new)>(s: seq<T>): (r: map<T, nat>)
    ensures forall x :: x in r <==> x in s
  {
    if s == [] then map[]
    else
      var s', x := s[..|s| - 1], s[|s| - 1];
      assert s == s' + [x];
      var rest := CountTable(s');
      rest[x := (if x in rest then rest[x] else 0) + 1]
  }

  /** Each entry of the table is the number of occurrences. */
  lemma {:induction false} CountTableCounts<T(!new)>(s: seq<T>, x: T)
    requires x in s
    ensures CountTable(s)[x] == multiset(s)[x]
  {
    var s', y := s[..|s| - 1], s[|s| - 1];
    assert s == s' + [y];
    if x in s' {
      CountTableCounts(s', x);
    }
  }

  lemma CountTableAppend<T(!new)>(s: seq<T>, x: T)
    ensures CountTable(s + [x])
            == CountTable(s)[x := (if x in CountTable(s) then CountTable(s)[x] else 0) + 1]
  {
    assert (s + [x])[..|s|] == s;
  }

  /** One `table[x] = (table[x] || 0) + 1` on the table filled from
      `seen`: the key is created, at the end of the key order, on first
      sight only. */
  method CountOne<T(==,!new)>(order: seq<T>, counts: map<T, nat>, ghost seen: seq<T>, x: T)
    returns (order': seq<T>, counts': map<T, nat>)
    requires order == Dedup(seen) && counts == CountTable(seen)
    ensures order' == Dedup(seen + [x])
    ensures counts' == CountTable(seen + [x])
  {
    if x in counts {
      DedupAppend(seen, x);
      CountTableAppend(seen, x);
      order', counts' := order, counts[x := counts[x] + 1];
    } else {
      assert x !in seen;
      DedupAppend(seen, x);
      CountTableAppend(seen, x);
      order', counts' := order + [x], counts[x := 1];
    }
  }

  lemma {:induction false} DistinctMultiplicity<T>(s: seq<T>, x: T)
    requires Distinct(s)
    ensures multiset(s)[x] <= 1
  {
    if s != [] {
      var s' := s[..|s| - 1];
      DistinctMultiplicity(s', x);
      assert s == s' + [s[|s| - 1]];
      assert s[|s| - 1] !in s';
    }
  }

  /** Rearranging a repetition-free sequence leaves it repetition-free. */
  lemma DistinctPermutation<T>(a: seq<T>, b: seq<T>)
    requires Distinct(a) && multiset(a) == multiset(b)
    ensures Distinct(b)
  {
    forall i, j | 0 <= i < j < |b|
      ensures b[i] != b[j]
    {
      if b[i] == b[j] {
        var x := b[i];
        assert b == b[..j] + b[j..];
        assert x in b[..j] && x in b[j..];
        assert multiset(b)[x] == multiset(b[..j])[x] + multiset(b[j..])[x];
        DistinctMultiplicity(a, x);
      }
    }
  }

  /** A prefix of a repetition-free sequence is repetition-free. */
  lemma DistinctPrefix<T>(s: seq<T>, n: nat)
    requires Distinct(s) && n <= |s|
    ensures Distinct(s[..n])
  {
  }

  /** One more element of a prefix. */
  lemma PrefixStep<T>(s: seq<T>, i: nat)
    requires i < |s|
    ensures s[..i + 1] == s[..i] + [s[i]]
    ensures s[..i + 1][..i] == s[..i]
  {
  }
  /** An element of a non-empty sequence is in its front part or is its
      last element. */
  lemma InFrontOrLast<T>(s: seq<T>, x: T)
    requires s != []
    ensures x in s <==> x in s[..|s| - 1] || x == s[|s| - 1]
  {
    assert s == s[..|s| - 1] + [s[|s| - 1]];
  }
  /** A non-empty sequence is its front part followed by its last
      element. */
  lemma FrontAndLast<T>(s: seq<T>)
    requires s != []
    ensures s[..|s| - 1] + [s[|s| - 1]] == s
  {
  }
  /** A set with at least one element has a member to pick. */
  lemma Pick<T>(s: set<T>) returns (x: T)
    requires |s| >= 1
    ensures x in s
  {
    if forall y :: y !in s {
      assert false;
    }
    x :| x in s;
  }
}
