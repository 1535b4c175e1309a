/** The Robinson–Schensted correspondence (`robinson_schensted`, `get_shape`):
    the insertion tableau P and the recording tableau Q, built as a fold over
    the permutation. */
module Correspondence {
  import opened Common
  import opened RowInsertion

  /** A tableau is a list of rows. */
  type Tableau = seq<seq<int>>

  /** The pair (P, Q) the correspondence builds. */
  datatype Tableaux = Tableaux(p: Tableau, q: Tableau)

  /** Where one insertion into P ended: the new P and the index of the row
      that grew (`row_num` after the `while` loop). */
  datatype Placed = Placed(tableau: Tableau, row: nat)

  /** The multiset of all entries of a tableau. */
  function Entries(t: Tableau): multiset<int> {
    if |t| == 0 then multiset{} else Entries(t[..|t| - 1]) + multiset(t[|t| - 1])
  }

  /** The row lengths of a tableau (`get_shape`). */
  function GetShape(t: Tableau): (s: seq<nat>)
    ensures |s| == |t|
    ensures forall i :: 0 <= i < |t| ==> s[i] == |t[i]|
  {
    seq(|t|, i requires 0 <= i < |t| => |t[i]|)
  }

  /** P and Q have the same number of rows and equal row lengths. */
  predicate SameShape(p: Tableau, q: Tableau) {
    |p| == |q| && forall r :: 0 <= r < |p| ==> |p[r]| == |q[r]|
  }

  predicate RowsNonDecreasing(t: Tableau) {
    forall r :: 0 <= r < |t| ==> NonDecreasing(t[r])
  }

  predicate RowsIncreasing(t: Tableau) {
    forall r :: 0 <= r < |t| ==> Increasing(t[r])
  }

  predicate RowsNonEmpty(t: Tableau) {
    forall r :: 0 <= r < |t| ==> |t[r]| > 0
  }

  /** Every entry of `t` lies in 1..k. */
  predicate EntriesAtMost(t: Tableau, k: int) {
    forall r, c :: 0 <= r < |t| && 0 <= c < |t[r]| ==> 1 <= t[r][c] <= k
  }

  lemma EntriesAppend(t: Tableau, row: seq<int>)
    ensures Entries(t + [row]) == Entries(t) + multiset(row)
  {
    assert (t + [row])[..|t|] == t;
  }

  lemma {:induction false} EntriesUpdate(t: Tableau, r: nat, row: seq<int>)
    requires r < |t|
    ensures Entries(t[r := row]) + multiset(t[r]) == Entries(t) + multiset(row)
  {
    var u := t[r := row];
    if r == |t| - 1 {
      assert u[..|u| - 1] == t[..|t| - 1];
    } else {
      EntriesUpdate(t[..|t| - 1], r, row);
      assert u[..|u| - 1] == t[..|t| - 1][r := row];
      assert u[|u| - 1] == t[|t| - 1];
      assert t[..|t| - 1][r] == t[r];
      var after, last, oldRow, before, newRow := Entries(u[..|u| - 1]), multiset(t[|t| - 1]), multiset(t[r]), Entries(t[..|t| - 1]), multiset(row);
      assert Entries(u) == after + last;
      assert Entries(t) == before + last;
      assert after + oldRow == before + newRow;
      forall v
        ensures (after + last + oldRow)[v] == (before + last + newRow)[v]
      {
        assert (after + oldRow)[v] == (before + newRow)[v];
      }
      assert after + last + oldRow == before + last + newRow;
    }
  }

  lemma MultisetCancel(a: multiset<int>, b: multiset<int>, c: multiset<int>)
    requires a + c == b + c
    ensures a == b
  {
    forall v
      ensures a[v] == b[v]
    {
      assert (a + c)[v] == (b + c)[v];
    }
  }

  /** Each row's entries are among the tableau's entries. */
  lemma {:induction false} RowWithinEntries(t: Tableau, r: nat)
    requires r < |t|
    ensures multiset(t[r]) <= Entries(t)
  {
    if r < |t| - 1 {
      RowWithinEntries(t[..|t| - 1], r);
    }
  }

  /** The shape of a tableau counts its entries. */
  lemma {:induction false} ShapeCountsEntries(t: Tableau)
    ensures Sum(GetShape(t)) == |Entries(t)|
  {
    if |t| > 0 {
      ShapeCountsEntries(t[..|t| - 1]);
      assert GetShape(t)[..|t| - 1] == GetShape(t[..|t| - 1]);
    }
  }

  /** The `while` loop of one insertion, from row `r` on: bump through the
      rows until a row accepts the value at its end, or open a new row when
      the value falls through every existing row. Exactly one row grows by
      one cell and the rows above `r` are untouched. */
  function InsertFrom(p: Tableau, x: int, r: nat): (res: Placed)
    requires r <= |p|
    decreases |p| - r
    ensures r <= res.row <= |p|
    ensures |res.tableau| == |p| + (if res.row == |p| then 1 else 0)
    ensures forall k :: 0 <= k < |p| && k != res.row ==> |res.tableau[k]| == |p[k]|
    ensures |res.tableau[res.row]| == (if res.row == |p| then 1 else |p[res.row]| + 1)
    ensures forall k :: 0 <= k < r ==> res.tableau[k] == p[k]
  {
    if r == |p| then Placed(p + [[x]], r)
    else
      var b := InsertIntoRow(p[r], x);
      match b.bumped
      case None => Placed(p[r := b.row], r)
      case Some(y) => InsertFrom(p[r := b.row], y, r + 1)
  }

  /** Bumping in row `r` moves values but loses none: the updated tableau
      plus the carried value holds what the old one held plus `x`. */
  lemma BumpEntries(p: Tableau, r: nat, x: int)
    requires r < |p|
    ensures Entries(p[r := InsertIntoRow(p[r], x).row]) + Carried(InsertIntoRow(p[r], x))
         == Entries(p) + multiset{x}
  {
    var b := InsertIntoRow(p[r], x);
    EntriesUpdate(p, r, b.row);
    var after, before, newRow, oldRow, c := Entries(p[r := b.row]), Entries(p), multiset(b.row), multiset(p[r]), Carried(b);
    assert after + oldRow == before + newRow;
    assert newRow + c == oldRow + multiset{x};
    forall v
      ensures (after + c + oldRow)[v] == (before + multiset{x} + oldRow)[v]
    {
      assert (after + oldRow)[v] == (before + newRow)[v];
      assert (newRow + c)[v] == (oldRow + multiset{x})[v];
    }
    MultisetCancel(after + c, before + multiset{x}, oldRow);
  }

  /** No value is lost or invented by an insertion: P gains exactly `x`. */
  lemma {:induction false} InsertFromEntries(p: Tableau, x: int, r: nat)
    requires r <= |p|
    ensures Entries(InsertFrom(p, x, r).tableau) == Entries(p) + multiset{x}
    decreases |p| - r
  {
    if r == |p| {
      EntriesAppend(p, [x]);
    } else {
      var b := InsertIntoRow(p[r], x);
      BumpEntries(p, r, x);
      if b.bumped.Some? {
        InsertFromEntries(p[r := b.row], b.bumped.value, r + 1);
      }
    }
  }

  /** An insertion keeps every row of P weakly increasing. */
  lemma {:induction false} InsertFromKeepsNonDecreasing(p: Tableau, x: int, r: nat)
    requires r <= |p| && RowsNonDecreasing(p)
    ensures RowsNonDecreasing(InsertFrom(p, x, r).tableau)
    decreases |p| - r
  {
    if r == |p| {
      var t := p + [[x]];
      forall m | 0 <= m < |t|
        ensures NonDecreasing(t[m])
      {
        if m < |p| {
          assert t[m] == p[m];
        }
      }
    } else {
      var b := InsertIntoRow(p[r], x);
      InsertKeepsNonDecreasing(p[r], x);
      var t := p[r := b.row];
      forall m | 0 <= m < |t|
        ensures NonDecreasing(t[m])
      {
        if m != r {
          assert t[m] == p[m];
        }
      }
      if b.bumped.Some? {
        InsertFromKeepsNonDecreasing(t, b.bumped.value, r + 1);
      }
    }
  }

  /** Recording step: append `step` to row `r` of Q, opening a new row when
      `r` is one past the last. */
  function Record(q: Tableau, r: nat, step: int): (q': Tableau)
    requires r <= |q|
    ensures |q'| == |q| + (if r == |q| then 1 else 0)
    ensures forall k :: 0 <= k < |q| && k != r ==> q'[k] == q[k]
    ensures q'[r] == (if r == |q| then [] else q[r]) + [step]
  {
    if r == |q| then q + [[step]]
    else q[r := q[r] + [step]]
  }

  /** Recording adds exactly the step number to Q. */
  lemma RecordEntries(q: Tableau, r: nat, step: int)
    requires r <= |q|
    ensures Entries(Record(q, r, step)) == Entries(q) + multiset{step}
  {
    if r == |q| {
      EntriesAppend(q, [step]);
    } else {
      EntriesUpdate(q, r, q[r] + [step]);
      MultisetCancel(Entries(q[r := q[r] + [step]]), Entries(q) + multiset{step}, multiset(q[r]));
    }
  }

  /** The invariant the fold keeps after `k` steps. */
  predicate Consistent(t: Tableaux, k: nat) {
    && SameShape(t.p, t.q)
    && RowsNonEmpty(t.p)
    && RowsNonDecreasing(t.p)
    && RowsIncreasing(t.q)
    && EntriesAtMost(t.q, k)
  }

  /** Appending the step number, larger than every entry so far, keeps Q's
      rows strictly increasing. */
  lemma RecordKeepsIncreasing(q: Tableau, r: nat, k: int)
    requires r <= |q| && RowsIncreasing(q) && EntriesAtMost(q, k - 1) && k >= 1
    ensures RowsIncreasing(Record(q, r, k)) && EntriesAtMost(Record(q, r, k), k)
  {
    var q' := Record(q, r, k);
    forall m | 0 <= m < |q'|
      ensures Increasing(q'[m])
    {
      if m == r && r < |q| {
        var row := q[m];
        assert q'[m] == row + [k];
        forall i, j | 0 <= i < j < |row| + 1
          ensures (row + [k])[i] < (row + [k])[j]
        {
          if j == |row| {
            assert (row + [k])[i] == row[i] <= k - 1;
          } else {
            assert (row + [k])[i] == row[i] && (row + [k])[j] == row[j];
          }
        }
      } else if m == r {
        assert q'[m] == [k];
      } else {
        assert q'[m] == q[m];
      }
    }
  }

  /** One iteration of the `for` loop: insert `value` into P and record step
      `k` in Q at the row where the insertion ended. */
  function Step(prev: Tableaux, value: int, k: nat): (next: Tableaux)
    requires |prev.p| == |prev.q|
    ensures |next.p| == |next.q|
  {
    var placed := InsertFrom(prev.p, value, 0);
    Tableaux(placed.tableau, Record(prev.q, placed.row, k))
  }

  /** P and Q grow in the same row, so a step keeps them the same shape. */
  lemma StepKeepsShape(prev: Tableaux, value: int, k: nat)
    requires SameShape(prev.p, prev.q) && RowsNonEmpty(prev.p)
    ensures SameShape(Step(prev, value, k).p, Step(prev, value, k).q)
    ensures RowsNonEmpty(Step(prev, value, k).p)
  {
  }

  /** One step keeps the invariant: P gains `value` and Q gains the step
      number `k`. */
  lemma StepKeepsConsistent(prev: Tableaux, value: int, k: nat)
    requires k >= 1 && Consistent(prev, k - 1)
    ensures Consistent(Step(prev, value, k), k)
    ensures Entries(Step(prev, value, k).p) == Entries(prev.p) + multiset{value}
    ensures Entries(Step(prev, value, k).q) == Entries(prev.q) + multiset{k}
  {
    var placed := InsertFrom(prev.p, value, 0);
    StepKeepsShape(prev, value, k);
    InsertFromKeepsNonDecreasing(prev.p, value, 0);
    InsertFromEntries(prev.p, value, 0);
    RecordKeepsIncreasing(prev.q, placed.row, k);
    RecordEntries(prev.q, placed.row, k);
  }

  /** (P, Q) after the first `k` values of `perm`. */
  function RSPrefix(perm: seq<int>, k: nat): (res: Tableaux)
    requires k <= |perm|
    ensures |res.p| == |res.q|
  {
    if k == 0 then Tableaux([], [])
    else Step(RSPrefix(perm, k - 1), perm[k - 1], k)
  }

  /** After every step P and Q have the same shape, P holds exactly the
      values processed so far, Q holds exactly the step numbers 1..k, P's
      rows are weakly increasing and Q's rows strictly increasing. */
  lemma {:induction false} PrefixConsistent(perm: seq<int>, k: nat)
    requires k <= |perm|
    ensures Consistent(RSPrefix(perm, k), k)
    ensures Entries(RSPrefix(perm, k).p) == multiset(perm[..k])
    ensures Entries(RSPrefix(perm, k).q) == multiset(Iota(k))
  {
    if k > 0 {
      var prev := RSPrefix(perm, k - 1);
      PrefixConsistent(perm, k - 1);
      StepKeepsConsistent(prev, perm[k - 1], k);
      PrefixMultiset(perm, k);
      IotaMultiset(k);
    }
  }

  /** `robinson_schensted`: the fold of insertion and recording over the whole permutation. */
  function RobinsonSchensted(perm: seq<int>): (res: Tableaux)
    ensures |res.p| == |res.q|
  {
    RSPrefix(perm, |perm|)
  }

  /** The finished pair: P and Q have the same shape, P's entries are
      exactly the input values, Q's entries exactly 1..n, P's rows weakly
      and Q's rows strictly increasing. */
  lemma RobinsonSchenstedInvariant(perm: seq<int>)
    ensures SameShape(RobinsonSchensted(perm).p, RobinsonSchensted(perm).q)
    ensures RowsNonEmpty(RobinsonSchensted(perm).p)
    ensures Entries(RobinsonSchensted(perm).p) == multiset(perm)
    ensures Entries(RobinsonSchensted(perm).q) == multiset(Iota(|perm|))
    ensures RowsNonDecreasing(RobinsonSchensted(perm).p)
    ensures RowsIncreasing(RobinsonSchensted(perm).q)
  {
    PrefixConsistent(perm, |perm|);
    assert perm[..|perm|] == perm;
  }

  /** The shape is a list of positive row lengths summing to n, shared by P and Q. */
  lemma ShapeSumsToLength(perm: seq<int>)
    ensures Sum(GetShape(RobinsonSchensted(perm).p)) == |perm|
    ensures GetShape(RobinsonSchensted(perm).p) == GetShape(RobinsonSchensted(perm).q)
    ensures forall i :: 0 <= i < |GetShape(RobinsonSchensted(perm).p)| ==>
      GetShape(RobinsonSchensted(perm).p)[i] > 0
  {
    RobinsonSchenstedInvariant(perm);
    ShapeCountsEntries(RobinsonSchensted(perm).p);
  }

  /** For a permutation (no repeated value) the rows of P are strictly increasing. */
  lemma {:induction false} DistinctGivesIncreasingRows(perm: seq<int>)
    requires Distinct(perm)
    ensures RowsIncreasing(RobinsonSchensted(perm).p)
  {
    var p := RobinsonSchensted(perm).p;
    RobinsonSchenstedInvariant(perm);
    DistinctMultiplicity(perm);
    forall r | 0 <= r < |p|
      ensures Increasing(p[r])
    {
      RowWithinEntries(p, r);
      forall v
        ensures multiset(p[r])[v] <= 1
      {
        assert multiset(p[r])[v] <= Entries(p)[v];
      }
      DistinctMultiplicity(p[r]);
    }
  }
}
