/** Shared vocabulary: optional values, orderings on integer sequences,
    the list [1..n], sums, products and factorials. */
module Common {

  /** Python's `None` / a present value. */
  datatype Option<+T> = None | Some(value: T)

  /** Strictly increasing left to right. */
  predicate Increasing(s: seq<int>) {
    forall i, j :: 0 <= i < j < |s| ==> s[i] < s[j]
  }

  /** Weakly increasing left to right. */
  predicate NonDecreasing(s: seq<int>) {
    forall i, j :: 0 <= i < j < |s| ==> s[i] <= s[j]
  }

  /** No value occurs twice. */
  predicate Distinct(s: seq<int>) {
    forall i, j :: 0 <= i < j < |s| ==> s[i] != s[j]
  }

  /** The list [1, 2, ..., n], which Python writes `list(range(1, n + 1))`. */
  function Iota(n: nat): (r: seq<int>)
    ensures |r| == n
    ensures forall i :: 0 <= i < n ==> r[i] == i + 1
  {
    if n == 0 then [] else Iota(n - 1) + [n]
  }

  /** The multiset of a prefix grows by the next element. */
  lemma PrefixMultiset(s: seq<int>, k: nat)
    requires 0 < k <= |s|
    ensures multiset(s[..k]) == multiset(s[..k - 1]) + multiset{s[k - 1]}
  {
    assert s[..k] == s[..k - 1] + [s[k - 1]];
  }

  /** The multiset of [1..k] is that of [1..k-1] plus k. */
  lemma IotaMultiset(k: nat)
    requires k > 0
    ensures multiset(Iota(k)) == multiset(Iota(k - 1)) + multiset{k}
  {
  }

  function Sum(s: seq<nat>): nat {
    if |s| == 0 then 0 else Sum(s[..|s| - 1]) + s[|s| - 1]
  }

  function Product(s: seq<int>): int {
    if |s| == 0 then 1 else s[0] * Product(s[1..])
  }

  function Factorial(n: nat): (r: nat)
    ensures r >= 1
  {
    if n == 0 then 1 else n * Factorial(n - 1)
  }

  /** A product of positive factors is positive. */
  lemma {:induction false} ProductPositive(s: seq<int>)
    requires forall i :: 0 <= i < |s| ==> s[i] >= 1
    ensures Product(s) >= 1
  {
    if |s| > 0 {
      ProductPositive(s[1..]);
    }
  }

  /** A value that occurs at two positions has multiplicity at least two. */
  lemma TwoOccurrences(s: seq<int>, i: nat, j: nat)
    requires i < j < |s| && s[i] == s[j]
    ensures multiset(s)[s[i]] >= 2
  {
    assert s == s[..j] + s[j..];
    assert s[..j][i] == s[i];
    assert s[j..][0] == s[i];
    assert multiset(s) == multiset(s[..j]) + multiset(s[j..]);
  }

  /** Distinctness is exactly "every multiplicity is at most one". */
  lemma {:induction false} DistinctMultiplicity(s: seq<int>)
    ensures Distinct(s) <==> forall v :: multiset(s)[v] <= 1
  {
    if Distinct(s) {
      if |s| > 0 {
        var init := s[..|s| - 1];
        assert Distinct(init);
        DistinctMultiplicity(init);
        assert s == init + [s[|s| - 1]];
        assert s[|s| - 1] !in init;
      }
    }
    if forall v :: multiset(s)[v] <= 1 {
      forall i, j | 0 <= i < j < |s|
        ensures s[i] != s[j]
      {
        if s[i] == s[j] {
          TwoOccurrences(s, i, j);
        }
      }
    }
  }

  /** The multiplicity of a value in a distinct sequence is 1 when it occurs and 0 otherwise. */
  lemma DistinctCount(s: seq<int>, v: int)
    requires Distinct(s)
    ensures multiset(s)[v] == if v in s then 1 else 0
  {
    DistinctMultiplicity(s);
  }

  /** A distinct sequence has as many elements as its set of values. */
  lemma {:induction false} DistinctCardinality(s: seq<int>)
    requires Distinct(s)
    ensures |set x | x in s| == |s|
  {
    if |s| > 0 {
      var init := s[..|s| - 1];
      var last := s[|s| - 1];
      DistinctCardinality(init);
      assert s == init + [last];
      assert (set x | x in s) == (set x | x in init) + {last};
      assert last !in (set x | x in init);
    }
  }

  /** [1..n] is strictly increasing and holds exactly the values 1..n. */
  lemma {:induction false} IotaValues(n: nat)
    ensures Increasing(Iota(n))
    ensures forall v :: v in Iota(n) <==> 1 <= v <= n
  {
    var r := Iota(n);
    forall v | 1 <= v <= n
      ensures v in r
    {
      assert r[v - 1] == v;
    }
  }

  /** A subset is no larger than its superset. */
  lemma SubsetSize<T>(a: set<T>, b: set<T>)
    requires a <= b
    ensures |a| <= |b|
  {
    assert b == a + (b - a);
    assert a * (b - a) == {};
  }

  /** A subset as large as its superset is the whole superset. */
  lemma SubsetOfEqualSize<T>(a: set<T>, b: set<T>)
    requires a <= b && |a| == |b|
    ensures a == b
  {
    assert b == a + (b - a);
    assert a * (b - a) == {};
    assert |b| == |a| + |b - a|;
    assert b - a == {};
  }
}
