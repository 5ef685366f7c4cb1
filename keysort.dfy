/**
 * Python's `sorted(s, key=key)` for a key with values below `bound`: a
 * stable sort, written as the elements of key 0, then those of key 1, and
 * so on, each run in input order.
 */
module KeySort {

  /** The elements of `s` whose key is `r`, in their input order. */
  function WithKey<T>(s: seq<T>, key: T -> nat, r: nat): (f: seq<T>)
    ensures forall k :: 0 <= k < |f| ==> key(f[k]) == r
  {
    if s == [] then []
    else
      var last := s[|s| - 1];
      WithKey(s[..|s| - 1], key, r) + (if key(last) == r then [last] else [])
  }

  /** The elements of `s` with a key below `n`, key by key. */
  function KeysBelowBlocks<T>(s: seq<T>, key: T -> nat, n: nat): (b: seq<T>)
    ensures forall k :: 0 <= k < |b| ==> key(b[k]) < n
  {
    if n == 0 then [] else KeysBelowBlocks(s, key, n - 1) + WithKey(s, key, n - 1)
  }

  function SortByKey<T>(s: seq<T>, key: T -> nat, bound: nat): seq<T>
  {
    KeysBelowBlocks(s, key, bound)
  }

  predicate SortedByKey<T>(s: seq<T>, key: T -> nat)
  {
    forall i, j :: 0 <= i <= j < |s| ==> key(s[i]) <= key(s[j])
  }

  predicate KeysBelow<T>(s: seq<T>, key: T -> nat, bound: nat)
  {
    forall k :: 0 <= k < |s| ==> key(s[k]) < bound
  }

  /** A sorted run of keys below `r` followed by a run of key `r` is sorted. */
  lemma SortedThenRun<T>(a: seq<T>, b: seq<T>, key: T -> nat, r: nat)
    requires SortedByKey(a, key)
    requires forall k :: 0 <= k < |a| ==> key(a[k]) < r
    requires forall k :: 0 <= k < |b| ==> key(b[k]) == r
    ensures SortedByKey(a + b, key)
  {
    var s := a + b;
    forall i, j | 0 <= i <= j < |s| ensures key(s[i]) <= key(s[j]) {
      if j < |a| {
        assert s[i] == a[i] && s[j] == a[j];
      } else if i >= |a| {
        assert s[i] == b[i - |a|] && s[j] == b[j - |a|];
      } else {
        assert s[i] == a[i] && s[j] == b[j - |a|];
      }
    }
  }

  lemma {:induction false} KeysBelowBlocksSorted<T>(s: seq<T>, key: T -> nat, n: nat)
    ensures SortedByKey(KeysBelowBlocks(s, key, n), key)
  {
    if n > 0 {
      KeysBelowBlocksSorted(s, key, n - 1);
      SortedThenRun(KeysBelowBlocks(s, key, n - 1), WithKey(s, key, n - 1), key, n - 1);
    }
  }

  /** An element occurs in the run of key `r` as often as in `s` if its key is `r`, and not at all otherwise. */
  lemma {:induction false} WithKeyCount<T>(s: seq<T>, key: T -> nat, r: nat, y: T)
    ensures multiset(WithKey(s, key, r))[y] == if key(y) == r then multiset(s)[y] else 0
  {
    if s != [] {
      var init, last := s[..|s| - 1], s[|s| - 1];
      var a, b := WithKey(init, key, r), if key(last) == r then [last] else [];
      assert s == init + [last];
      assert WithKey(s, key, r) == a + b;
      WithKeyCount(init, key, r, y);
      assert multiset(a + b)[y] == multiset(a)[y] + multiset(b)[y];
      assert multiset(s)[y] == multiset(init)[y] + multiset([last])[y];
    }
  }

  /** An element occurs in the blocks below `n` as often as in `s` if its key is below `n`, and not at all otherwise. */
  lemma {:induction false} KeysBelowBlocksCount<T>(s: seq<T>, key: T -> nat, n: nat, y: T)
    ensures multiset(KeysBelowBlocks(s, key, n))[y] == if key(y) < n then multiset(s)[y] else 0
  {
    if n > 0 {
      var m := n - 1;
      var a, b := KeysBelowBlocks(s, key, m), WithKey(s, key, m);
      assert KeysBelowBlocks(s, key, n) == a + b;
      KeysBelowBlocksCount(s, key, m, y);
      WithKeyCount(s, key, m, y);
      assert multiset(a + b)[y] == multiset(a)[y] + multiset(b)[y];
    }
  }

  /** Multisets with the same count for every element are equal. */
  lemma MultisetExt<T>(a: multiset<T>, b: multiset<T>)
    requires forall y :: a[y] == b[y]
    ensures a == b
  {
  }

  /** The sort keeps every element, as many times as it occurs, when every key is below `bound`. */
  lemma SortByKeyPermutes<T>(s: seq<T>, key: T -> nat, bound: nat)
    requires KeysBelow(s, key, bound)
    ensures multiset(SortByKey(s, key, bound)) == multiset(s)
  {
    var sorted := SortByKey(s, key, bound);
    forall y ensures multiset(sorted)[y] == multiset(s)[y] {
      KeysBelowBlocksCount(s, key, bound, y);
    }
    MultisetExt(multiset(sorted), multiset(s));
  }

  /** The sort orders by key and, with every key below `bound`, is a permutation. */
  lemma SortByKeySorts<T>(s: seq<T>, key: T -> nat, bound: nat)
    requires KeysBelow(s, key, bound)
    ensures SortedByKey(SortByKey(s, key, bound), key)
    ensures multiset(SortByKey(s, key, bound)) == multiset(s)
    ensures |SortByKey(s, key, bound)| == |s|
  {
    KeysBelowBlocksSorted(s, key, bound);
    SortByKeyPermutes(s, key, bound);
    assert |multiset(SortByKey(s, key, bound))| == |multiset(s)|;
  }
}
