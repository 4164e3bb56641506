/**
 Order-preserving filtering of sequences (Python's list comprehension with an `if`
 clause) and the subsequence relation it establishes.
 */
module Seqs {

  /** `idx` picks, in strictly increasing positions of `s`, the elements of `r`. */
  ghost predicate Embeds<T>(idx: seq<nat>, r: seq<T>, s: seq<T>) {
    && |idx| == |r|
    && (forall k :: 0 <= k < |idx| ==> idx[k] < |s| && r[k] == s[idx[k]])
    && (forall k, l :: 0 <= k < l < |idx| ==> idx[k] < idx[l])
  }

  /** `r` is `s` with some elements dropped and the rest kept in their order. */
  ghost predicate IsSubsequence<T>(r: seq<T>, s: seq<T>) {
    exists idx :: Embeds(idx, r, s)
  }

  /** `[x for x in s if p(x)]`. */
  function Filter<T(!new)>(s: seq<T>, p: T -> bool): (r: seq<T>)
    ensures |r| <= |s|
    ensures forall x :: x in r <==> x in s && p(x)
    ensures forall x :: multiset(r)[x] == if p(x) then multiset(s)[x] else 0
    ensures |r| == |s| <==> forall x :: x in s ==> p(x)
    ensures (forall x :: x in s ==> p(x)) ==> r == s
  {
    if s == [] then []
    else
      var init := s[..|s| - 1];
      var last := s[|s| - 1];
      assert s == init + [last];
      Filter(init, p) + (if p(last) then [last] else [])
  }

  /** The positions of `s` that `Filter(s, p)` keeps, in increasing order. */
  function Kept<T(!new)>(s: seq<T>, p: T -> bool): (idx: seq<nat>)
    ensures forall k :: 0 <= k < |idx| ==> idx[k] < |s|
  {
    if s == [] then []
    else Kept(s[..|s| - 1], p) + (if p(s[|s| - 1]) then [|s| - 1] else [])
  }

  /** The kept positions embed the filtered sequence in the original. */
  lemma {:induction false} FilterEmbeds<T(!new)>(s: seq<T>, p: T -> bool)
    ensures Embeds(Kept(s, p), Filter(s, p), s)
  {
    if s != [] {
      var init, last := s[..|s| - 1], s[|s| - 1];
      FilterEmbeds(init, p);
      var idx, r := Kept(init, p), Filter(init, p);
      assert Embeds(idx, r, init);
      assert forall k :: 0 <= k < |idx| ==> idx[k] < |init| && r[k] == s[idx[k]];
      if p(last) {
        ExtendEmbedding(idx, r, s);
      }
    }
  }

  /** An embedding into all but the last element of `s` extends by that last element. */
  lemma ExtendEmbedding<T>(idx: seq<nat>, r: seq<T>, s: seq<T>)
    requires s != []
    requires |idx| == |r|
    requires forall k :: 0 <= k < |idx| ==> idx[k] < |s| - 1 && r[k] == s[idx[k]]
    requires forall k, l :: 0 <= k < l < |idx| ==> idx[k] < idx[l]
    ensures Embeds(idx + [|s| - 1], r + [s[|s| - 1]], s)
  {
  }

  /** Filtering yields a subsequence: it keeps relative order and invents nothing. */
  lemma FilterIsSubsequence<T(!new)>(s: seq<T>, p: T -> bool)
    ensures IsSubsequence(Filter(s, p), s)
  {
    FilterEmbeds(s, p);
  }

  /** Every sequence is a subsequence of itself. */
  lemma SubsequenceReflexive<T>(s: seq<T>)
    ensures IsSubsequence(s, s)
  {
    var idx: seq<nat> := seq(|s|, k => k);
    assert Embeds(idx, s, s);
  }

  /** Two tests that agree on every element of `s` select the same subsequence. */
  lemma {:induction false} FilterCongruent<T(!new)>(s: seq<T>, p: T -> bool, q: T -> bool)
    requires forall x :: x in s ==> p(x) == q(x)
    ensures Filter(s, p) == Filter(s, q)
  {
    if s != [] {
      var init := s[..|s| - 1];
      assert forall x :: x in init ==> x in s;
      FilterCongruent(init, p, q);
    }
  }
}
