/** The smoothness predicate (`extract_subpermutations`, `ifsmooth`): a
    permutation is smooth when no four positions, read left to right, show
    pattern 3412 or pattern 4231. */
module Smoothness {
  import opened Common

  /** Indices of `c` all lie in lo..hi-1. */
  predicate InRange(c: seq<nat>, lo: nat, hi: nat) {
    forall t :: 0 <= t < |c| ==> lo <= c[t] < hi
  }

  /** Strictly increasing list of indices. */
  predicate AscendingIndices(c: seq<nat>) {
    forall s, t :: 0 <= s < t < |c| ==> c[s] < c[t]
  }

  /** Every tuple of `cs` with `x` put in front. */
  function PrependAll(x: nat, cs: seq<seq<nat>>): (r: seq<seq<nat>>)
    ensures |r| == |cs|
    ensures forall m :: 0 <= m < |cs| ==> r[m] == [x] + cs[m]
  {
    seq(|cs|, m requires 0 <= m < |cs| => [x] + cs[m])
  }

  /** `itertools.combinations(range(lo, hi), k)`: the k-tuples of indices in
      lo..hi-1 in lexicographic order — first those starting with `lo`, then
      those that do not. */
  function Combinations(lo: nat, hi: nat, k: nat): (cs: seq<seq<nat>>)
    decreases hi - lo, k
    ensures forall m :: 0 <= m < |cs| ==> |cs[m]| == k && InRange(cs[m], lo, hi)
  {
    if k == 0 then [[]]
    else if hi <= lo then []
    else PrependAll(lo, Combinations(lo + 1, hi, k - 1)) + Combinations(lo + 1, hi, k)
  }

  /** The values of `p` at the positions listed in `c`. */
  function Pick(p: seq<int>, c: seq<nat>): (s: seq<int>)
    requires InRange(c, 0, |p|)
    ensures |s| == |c|
    ensures forall t :: 0 <= t < |c| ==> s[t] == p[c[t]]
  {
    seq(|c|, t requires 0 <= t < |c| => p[c[t]])
  }

  /** `extract_subpermutations`: the subsequence of `p` for every
      `length`-combination of its positions. Each has exactly `length`
      entries, so the length assertion in `ifsmooth` never fails. */
  function ExtractSubpermutations(p: seq<int>, length: nat): (subs: seq<seq<int>>)
    ensures |subs| == |Combinations(0, |p|, length)|
    ensures forall m :: 0 <= m < |subs| ==> |subs[m]| == length
    ensures forall m :: 0 <= m < |subs| ==> subs[m] == Pick(p, Combinations(0, |p|, length)[m])
  {
    var cs := Combinations(0, |p|, length);
    seq(|cs|, m requires 0 <= m < |cs| => Pick(p, cs[m]))
  }

  /** The first test of `ifsmooth`: entries read as pattern 3412. */
  predicate Pattern3412(s: seq<int>)
    requires |s| == 4
  {
    s[1] > s[0] && s[0] > s[3] && s[3] > s[2]
  }

  /** The second test of `ifsmooth`: entries read as pattern 4231. */
  predicate Pattern4231(s: seq<int>)
    requires |s| == 4
  {
    s[0] > s[2] && s[2] > s[1] && s[1] > s[3]
  }

  /** Either test of `ifsmooth` fires on `s`. */
  predicate ShowsPattern(s: seq<int>)
    requires |s| == 4
  {
    Pattern3412(s) || Pattern4231(s)
  }

  /** The `for` loop of `ifsmooth` from subsequence `m` on: false at the
      first subsequence showing either pattern, true when none does. */
  function NoPatternFrom(subs: seq<seq<int>>, m: nat): bool
    requires forall x :: 0 <= x < |subs| ==> |subs[x]| == 4
    requires m <= |subs|
    decreases |subs| - m
  {
    if m == |subs| then true
    else if ShowsPattern(subs[m]) then false
    else NoPatternFrom(subs, m + 1)
  }

  /** `ifsmooth`. */
  function IfSmooth(p: seq<int>): bool {
    NoPatternFrom(ExtractSubpermutations(p, 4), 0)
  }

  /** Positions i < j < k < l of `p` that show pattern 3412
      (p[j] > p[i] > p[l] > p[k]) or pattern 4231 (p[i] > p[k] > p[j] > p[l]). */
  predicate ForbiddenAt(p: seq<int>, i: int, j: int, k: int, l: int) {
    && 0 <= i < j < k < l < |p|
    && ((p[j] > p[i] > p[l] > p[k]) || (p[i] > p[k] > p[j] > p[l]))
  }

  /** Combination `m` of lo..hi-1 either starts with `lo` or is a
      combination of lo+1..hi-1. */
  lemma CombinationsAt(lo: nat, hi: nat, k: nat, m: nat)
    requires 0 < k && lo < hi && m < |Combinations(lo, hi, k)|
    ensures var rest := Combinations(lo + 1, hi, k - 1);
      if m < |rest| then Combinations(lo, hi, k)[m] == [lo] + rest[m]
      else Combinations(lo, hi, k)[m] == Combinations(lo + 1, hi, k)[m - |rest|]
  {
  }

  /** Every combination lists its indices in strictly increasing order. */
  lemma {:induction false} CombinationsAscending(lo: nat, hi: nat, k: nat, m: nat)
    requires m < |Combinations(lo, hi, k)|
    ensures AscendingIndices(Combinations(lo, hi, k)[m])
    decreases hi - lo, k
  {
    if k > 0 && lo < hi {
      var c := Combinations(lo, hi, k)[m];
      var rest := Combinations(lo + 1, hi, k - 1);
      CombinationsAt(lo, hi, k, m);
      if m < |rest| {
        CombinationsAscending(lo + 1, hi, k - 1, m);
        assert forall t :: 1 <= t < |c| ==> c[t] == rest[m][t - 1];
      } else {
        CombinationsAscending(lo + 1, hi, k, m - |rest|);
      }
    }
  }

  /** Every strictly increasing k-tuple of indices in lo..hi-1 is a
      combination; `m` is its position in the list. */
  lemma {:induction false} CombinationsComplete(lo: nat, hi: nat, k: nat, c: seq<nat>) returns (m: nat)
    requires |c| == k && InRange(c, lo, hi) && AscendingIndices(c)
    ensures m < |Combinations(lo, hi, k)| && Combinations(lo, hi, k)[m] == c
    decreases hi - lo, k
  {
    if k == 0 {
      m := 0;
    } else {
      assert lo <= c[0] < hi;
      var rest := Combinations(lo + 1, hi, k - 1);
      if c[0] == lo {
        var tail := c[1..];
        assert forall t :: 0 <= t < |tail| ==> tail[t] == c[t + 1] && c[0] < c[t + 1];
        m := CombinationsComplete(lo + 1, hi, k - 1, tail);
        CombinationsAt(lo, hi, k, m);
        assert [lo] + tail == c;
      } else {
        assert forall t :: 0 <= t < |c| ==> c[0] <= c[t];
        var m' := CombinationsComplete(lo + 1, hi, k, c);
        m := m' + |rest|;
        CombinationsAt(lo, hi, k, m);
      }
    }
  }

  /** The combinations are exactly the strictly increasing k-tuples of indices in lo..hi-1. */
  lemma CombinationsExactly(lo: nat, hi: nat, k: nat, c: seq<nat>)
    ensures c in Combinations(lo, hi, k) <==> |c| == k && InRange(c, lo, hi) && AscendingIndices(c)
  {
    var cs := Combinations(lo, hi, k);
    if c in cs {
      var m :| 0 <= m < |cs| && cs[m] == c;
      CombinationsAscending(lo, hi, k, m);
    }
    if |c| == k && InRange(c, lo, hi) && AscendingIndices(c) {
      var m := CombinationsComplete(lo, hi, k, c);
    }
  }

  /** `extract_subpermutations` lists exactly the subsequences of `p` read at
      strictly increasing positions, `length` of them at a time. */
  lemma ExtractSubpermutationsExactly(p: seq<int>, length: nat, s: seq<int>)
    ensures s in ExtractSubpermutations(p, length) <==>
      exists c: seq<nat> :: |c| == length && InRange(c, 0, |p|) && AscendingIndices(c) && s == Pick(p, c)
  {
    var subs := ExtractSubpermutations(p, length);
    var cs := Combinations(0, |p|, length);
    if s in subs {
      var m :| 0 <= m < |subs| && subs[m] == s;
      CombinationsAscending(0, |p|, length, m);
      assert s == Pick(p, cs[m]);
    }
    if exists c: seq<nat> :: |c| == length && InRange(c, 0, |p|) && AscendingIndices(c) && s == Pick(p, c) {
      var c: seq<nat> :| |c| == length && InRange(c, 0, |p|) && AscendingIndices(c) && s == Pick(p, c);
      var m := CombinationsComplete(0, |p|, length, c);
      assert subs[m] == s;
    }
  }

  /** The scan finds no pattern exactly when no subsequence from `m` on shows one. */
  lemma {:induction false} NoPatternFromIff(subs: seq<seq<int>>, m: nat)
    requires forall x :: 0 <= x < |subs| ==> |subs[x]| == 4
    requires m <= |subs|
    ensures NoPatternFrom(subs, m) <==>
      forall x :: m <= x < |subs| ==> !ShowsPattern(subs[x])
    decreases |subs| - m
  {
    if m < |subs| {
      NoPatternFromIff(subs, m + 1);
    }
  }

  /** A subsequence the scan rejects comes from forbidden positions. */
  lemma PatternGivesForbidden(p: seq<int>, x: nat)
    requires x < |ExtractSubpermutations(p, 4)|
    requires ShowsPattern(ExtractSubpermutations(p, 4)[x])
    ensures exists i, j, k, l :: ForbiddenAt(p, i, j, k, l)
  {
    var c := Combinations(0, |p|, 4)[x];
    CombinationsAscending(0, |p|, 4, x);
    var s := ExtractSubpermutations(p, 4)[x];
    assert s[0] == p[c[0]] && s[1] == p[c[1]] && s[2] == p[c[2]] && s[3] == p[c[3]];
    assert ForbiddenAt(p, c[0], c[1], c[2], c[3]);
  }

  /** Forbidden positions show up as a subsequence the scan rejects. */
  lemma ForbiddenGivesPattern(p: seq<int>, i: nat, j: nat, k: nat, l: nat)
    requires ForbiddenAt(p, i, j, k, l)
    ensures exists x :: 0 <= x < |ExtractSubpermutations(p, 4)| && ShowsPattern(ExtractSubpermutations(p, 4)[x])
  {
    var c: seq<nat> := [i, j, k, l];
    var x := CombinationsComplete(0, |p|, 4, c);
    var s := ExtractSubpermutations(p, 4)[x];
    assert s[0] == p[i] && s[1] == p[j] && s[2] == p[k] && s[3] == p[l];
  }

  /** `ifsmooth(p)` is false exactly when some positions i < j < k < l show
      pattern 3412 or pattern 4231. */
  lemma SmoothIff(p: seq<int>)
    ensures IfSmooth(p) <==> !exists i, j, k, l :: ForbiddenAt(p, i, j, k, l)
  {
    var subs := ExtractSubpermutations(p, 4);
    NoPatternFromIff(subs, 0);
    if !IfSmooth(p) {
      var x :| 0 <= x < |subs| && ShowsPattern(subs[x]);
      PatternGivesForbidden(p, x);
    }
    if exists i, j, k, l :: ForbiddenAt(p, i, j, k, l) {
      var i, j, k, l :| ForbiddenAt(p, i, j, k, l);
      ForbiddenGivesPattern(p, i, j, k, l);
    }
  }

  /** Fewer than four entries leave no room for a pattern. */
  lemma ShortIsSmooth(p: seq<int>)
    requires |p| < 4
    ensures IfSmooth(p)
  {
    SmoothIff(p);
  }

  /** An increasing sequence, the identity permutation in particular, is smooth. */
  lemma IncreasingIsSmooth(p: seq<int>)
    requires Increasing(p)
    ensures IfSmooth(p)
  {
    SmoothIff(p);
  }

  /** 3 4 1 2 is pattern 3412 itself and so is not smooth. */
  lemma ExampleThreeFourOneTwo()
    ensures !IfSmooth([3, 4, 1, 2])
  {
    SmoothIff([3, 4, 1, 2]);
    assert ForbiddenAt([3, 4, 1, 2], 0, 1, 2, 3);
  }

  /** 4 2 3 1 is pattern 4231 itself and so is not smooth. */
  lemma ExampleFourTwoThreeOne()
    ensures !IfSmooth([4, 2, 3, 1])
  {
    SmoothIff([4, 2, 3, 1]);
    assert ForbiddenAt([4, 2, 3, 1], 0, 1, 2, 3);
  }

  /** 1 3 2 4 shows neither pattern. */
  lemma ExampleOneThreeTwoFour()
    ensures IfSmooth([1, 3, 2, 4])
  {
    SmoothIff([1, 3, 2, 4]);
  }
}
