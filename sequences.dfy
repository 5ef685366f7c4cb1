/** Small facts about sequences and sets that the loop proofs use as rewriting steps. */
module Sequences {

  /** A prefix one longer is the shorter prefix and the next element. */
  lemma PrefixSnoc<T>(s: seq<T>, i: nat)
    requires i < |s|
    ensures s[..i + 1] == s[..i] + [s[i]]
  {
  }

  lemma AppendAssoc<T>(a: seq<T>, b: seq<T>, c: seq<T>)
    ensures (a + b) + c == a + (b + c)
  {
  }

  /** Taking one element out of a set makes it smaller. */
  lemma RemoveShrinks<T>(s: set<T>, x: T)
    requires x in s
    ensures |s - {x}| < |s|
  {
    assert s == (s - {x}) + {x};
  }

  /** An element equal to one equal to `x` is `x`. */
  lemma IndexChain<T>(s: seq<T>, b: seq<T>, i: nat, j: nat, x: T)
    requires i < |s| && j < |b| && s[i] == b[j] && b[j] == x
    ensures s[i] == x
  {
  }

  /** `f` is the elements of `s` at the strictly increasing positions `pos`: an order-keeping selection. */
  ghost predicate Picks<T>(s: seq<T>, f: seq<T>, pos: seq<nat>)
  {
    && |pos| == |f|
    && (forall m :: 0 <= m < |pos| ==> pos[m] < |s| && f[m] == s[pos[m]])
    && (forall m, n :: 0 <= m < n < |pos| ==> pos[m] < pos[n])
  }

  /** Appending an element to `s`, and picking it or not, extends the selection. */
  lemma PicksSnoc<T>(s: seq<T>, f: seq<T>, pos: seq<nat>, x: T, kept: bool, s': seq<T>, f': seq<T>)
    requires Picks(s, f, pos)
    requires s' == s + [x] && f' == f + (if kept then [x] else [])
    ensures Picks(s', f', pos + (if kept then [|s|] else []))
  {
    var pos' := pos + (if kept then [|s|] else []);
    forall m | 0 <= m < |pos'| ensures pos'[m] < |s'| && f'[m] == s'[pos'[m]] {
      if m < |pos| {
        assert s'[pos[m]] == s[pos[m]];
      }
    }
  }

  /** The elements of `s` that `keep` accepts, in their order in `s`. */
  function Filter<T>(s: seq<T>, keep: T -> bool): (f: seq<T>)
    ensures |f| <= |s|
  {
    if s == [] then [] else Filter(s[..|s| - 1], keep) + (if keep(s[|s| - 1]) then [s[|s| - 1]] else [])
  }

  /** `Filter` picks every accepted element of `s`, at strictly increasing positions. */
  lemma {:induction false} FilterInOrder<T>(s: seq<T>, keep: T -> bool) returns (pos: seq<nat>)
    ensures Picks(s, Filter(s, keep), pos)
    ensures forall k :: 0 <= k < |s| && keep(s[k]) ==> k in pos
  {
    if s == [] {
      pos := [];
    } else {
      var init, last := s[..|s| - 1], s[|s| - 1];
      var before := FilterInOrder(init, keep);
      assert init + [last] == s;
      PicksSnoc(init, Filter(init, keep), before, last, keep(last), s, Filter(s, keep));
      pos := before + (if keep(last) then [|init|] else []);
      forall k | 0 <= k < |s| && keep(s[k]) ensures k in pos {
        if k < |init| {
          assert init[k] == s[k];
          assert k in before;
        } else {
          assert pos[|before|] == k;
        }
      }
    }
  }

  /** A prefix of a suffix is a slice, and the suffix's elements are the original's, shifted. */
  lemma SliceOfSuffix<T>(s: seq<T>, i: nat, left: seq<T>, n: nat)
    requires i <= |s| && left == s[i..] && n <= |left|
    ensures left[..n] == s[i..i + n]
    ensures forall k :: i <= k < |s| ==> left[k - i] == s[k]
  {
  }
}
