/** The order in which `Object.entries` lists the keys of a plain object
    used as a counting table (OrdinaryOwnPropertyKeys in ECMA-262): keys
    that are array indices come first in ascending numeric order, then the
    other string keys in the order they were first added. */
module ObjectKeys {
  import opened Prelude
  import opened Text
  import opened Sorting

  /** The largest array index, 2^32 - 2. */
  const MaxArrayIndex: nat := 4294967294

  /** A key that is the canonical decimal form of an array index. */
  predicate IsArrayIndex(k: string) {
    k != [] && AllDigits(k) && (|k| > 1 ==> k[0] != '0') && DigitsValue(k) <= MaxArrayIndex
  }

  /** The numeric value an array-index key is ordered by. */
  function IndexValue(k: string): real {
    if AllDigits(k) then DigitsValue(k) as real else 0.0
  }

  /** The array-index keys, in creation order. */
  function IndexKeys(keys: seq<string>): (r: seq<string>)
    ensures forall k :: k in r ==> IsArrayIndex(k)
  {
    if keys == [] then []
    else
      var last := keys[|keys| - 1];
      var rest := IndexKeys(keys[..|keys| - 1]);
      if IsArrayIndex(last) then rest + [last] else rest
  }

  /** The remaining keys, in creation order. */
  function OtherKeys(keys: seq<string>): (r: seq<string>)
    ensures forall k :: k in r ==> !IsArrayIndex(k)
  {
    if keys == [] then []
    else
      var last := keys[|keys| - 1];
      var rest := OtherKeys(keys[..|keys| - 1]);
      if IsArrayIndex(last) then rest else rest + [last]
  }

  lemma {:induction false} SplitKeysPermutation(keys: seq<string>)
    ensures multiset(IndexKeys(keys)) + multiset(OtherKeys(keys)) == multiset(keys)
  {
    if keys != [] {
      SplitKeysPermutation(keys[..|keys| - 1]);
      assert keys == keys[..|keys| - 1] + [keys[|keys| - 1]];
    }
  }

  /** `Object.entries(table)` keys, given the keys in creation order. */
  function OwnKeys(keys: seq<string>): (r: seq<string>) {
    SortBy(IndexKeys(keys), IndexValue) + OtherKeys(keys)
  }

  /** The listing rearranges the keys: array indices first, in ascending
      numeric order, then the other keys in creation order. */
  lemma OwnKeysOrder(keys: seq<string>)
    ensures var r := OwnKeys(keys);
            var n := |IndexKeys(keys)|;
            multiset(r) == multiset(keys)
            && n <= |r|
            && (forall i :: 0 <= i < n ==> IsArrayIndex(r[i]))
            && (forall i, j :: 0 <= i < j < n ==> IndexValue(r[i]) <= IndexValue(r[j]))
            && r[n..] == OtherKeys(keys)
  {
    var sorted := SortBy(IndexKeys(keys), IndexValue);
    SplitKeysPermutation(keys);
    SortSorted(IndexKeys(keys), IndexValue);
    forall i | 0 <= i < |sorted|
      ensures IsArrayIndex(sorted[i])
    {
      assert sorted[i] in multiset(IndexKeys(keys));
    }
  }
}
