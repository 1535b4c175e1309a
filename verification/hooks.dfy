/** The hook-length formula of Frame, Robinson and Thrall (`hook_lengths`,
    `hook_formula`): per-cell hook lengths of a shape and the number of
    standard Young tableaux of that shape. */
module Hooks {
  import opened Common

  /** How many rows at index `from` or later reach column `j` (the `down`
      generator, started at row i + 1). */
  function CountBelow(shape: seq<nat>, j: nat, from: nat): nat
    decreases |shape| - from
  {
    if from >= |shape| then 0
    else (if j < shape[from] then 1 else 0) + CountBelow(shape, j, from + 1)
  }

  /** The indices of the rows at `from` or later that reach column `j`. */
  function RowsReaching(shape: seq<nat>, j: nat, from: nat): set<nat> {
    set k: nat | from <= k < |shape| && j < shape[k]
  }

  /** Hook length of cell (i, j): itself, the cells to its right, and the
      cells below it in column j. */
  function Hook(shape: seq<nat>, i: nat, j: nat): int
    requires i < |shape| && j < shape[i]
  {
    1 + CountBelow(shape, j, i + 1) + (shape[i] - j - 1)
  }

  /** `hook_lengths`: a matrix with one row per part, row i holding shape[i]
      entries, every one of them at least 1. */
  function HookLengths(shape: seq<nat>): (h: seq<seq<int>>)
    ensures |h| == |shape|
    ensures forall i :: 0 <= i < |h| ==> |h[i]| == shape[i]
    ensures forall i, j :: 0 <= i < |h| && 0 <= j < |h[i]| ==> h[i][j] >= 1
  {
    seq(|shape|, i requires 0 <= i < |shape| =>
      seq(shape[i], j requires 0 <= j < shape[i] => Hook(shape, i, j)))
  }

  /** The product of every entry of a matrix, row by row. */
  function MatrixProduct(h: seq<seq<int>>): int {
    if |h| == 0 then 1 else Product(h[0]) * MatrixProduct(h[1..])
  }

  lemma {:induction false} MatrixProductPositive(h: seq<seq<int>>)
    requires forall i, j :: 0 <= i < |h| && 0 <= j < |h[i]| ==> h[i][j] >= 1
    ensures MatrixProduct(h) >= 1
  {
    if |h| > 0 {
      ProductPositive(h[0]);
      MatrixProductPositive(h[1..]);
    }
  }

  /** The product of all hook lengths of a shape. */
  function HookProduct(shape: seq<nat>): (p: int)
    ensures p >= 1
  {
    MatrixProductPositive(HookLengths(shape));
    MatrixProduct(HookLengths(shape))
  }

  /** `hook_formula`: n! integer-divided by the hook product, n the number of
      cells. The result is the floor of the quotient, as Python's `//` gives. */
  function HookFormula(shape: seq<nat>): (count: nat)
    ensures count * HookProduct(shape) <= Factorial(Sum(shape)) < (count + 1) * HookProduct(shape)
  {
    Factorial(Sum(shape)) / HookProduct(shape)
  }

  /** The recursive count of lower rows is the size of the set it describes. */
  lemma {:induction false} CountBelowIsCardinality(shape: seq<nat>, j: nat, from: nat)
    ensures CountBelow(shape, j, from) == |RowsReaching(shape, j, from)|
    decreases |shape| - from
  {
    if from < |shape| {
      CountBelowIsCardinality(shape, j, from + 1);
      var rest := RowsReaching(shape, j, from + 1);
      if j < shape[from] {
        assert RowsReaching(shape, j, from) == {from} + rest;
        assert from !in rest;
      } else {
        assert RowsReaching(shape, j, from) == rest;
      }
    } else {
      assert RowsReaching(shape, j, from) == {};
    }
  }

  /** Entry (i, j) of `hook_lengths` is 1 plus the cells to the right of
      (i, j) plus the number of lower rows k with j < shape[k]. */
  lemma HookLengthsDefinition(shape: seq<nat>, i: nat, j: nat)
    requires i < |shape| && j < shape[i]
    ensures HookLengths(shape)[i][j]
         == 1 + (shape[i] - j - 1) + |set k: nat | i < k < |shape| && j < shape[k]|
  {
    CountBelowIsCardinality(shape, j, i + 1);
    assert RowsReaching(shape, j, i + 1) == set k: nat | i < k < |shape| && j < shape[k];
  }

  /** A sequence n, n-1, ..., 1 multiplies to n!. */
  lemma {:induction false} CountdownProduct(s: seq<int>)
    requires forall j :: 0 <= j < |s| ==> s[j] == |s| - j
    ensures Product(s) == Factorial(|s|)
  {
    if |s| > 0 {
      CountdownProduct(s[1..]);
    }
  }

  /** A matrix whose rows are [n], [n-1], ..., [1] multiplies to n!. */
  lemma {:induction false} CountdownColumnProduct(h: seq<seq<int>>)
    requires forall i :: 0 <= i < |h| ==> h[i] == [|h| - i]
    ensures MatrixProduct(h) == Factorial(|h|)
  {
    if |h| > 0 {
      CountdownColumnProduct(h[1..]);
      assert Product(h[0]) == |h| by {
        assert h[0][1..] == [];
      }
    }
  }

  /** A single row of n cells has hooks n, n-1, ..., 1 and exactly one
      standard tableau. */
  lemma SingleRowHasOneTableau(n: nat)
    ensures HookProduct([n]) == Factorial(n)
    ensures HookFormula([n]) == 1
  {
    var h := HookLengths([n]);
    forall j | 0 <= j < n
      ensures h[0][j] == n - j
    {
      assert CountBelow([n], j, 1) == 0;
    }
    CountdownProduct(h[0]);
    assert h[1..] == [];
    assert MatrixProduct(h) == Product(h[0]) * MatrixProduct(h[1..]);
    assert Sum([n]) == n;
  }

  /** The number of rows at `from` or later of an all-ones shape that reach
      column 0 is the number of those rows. */
  lemma {:induction false} CountBelowOnes(shape: seq<nat>, from: nat)
    requires forall k :: 0 <= k < |shape| ==> shape[k] == 1
    requires from <= |shape|
    ensures CountBelow(shape, 0, from) == |shape| - from
    decreases |shape| - from
  {
    if from < |shape| {
      CountBelowOnes(shape, from + 1);
    }
  }

  /** Sum of an all-ones shape is its length. */
  lemma {:induction false} SumOfOnes(shape: seq<nat>)
    requires forall k :: 0 <= k < |shape| ==> shape[k] == 1
    ensures Sum(shape) == |shape|
  {
    if |shape| > 0 {
      SumOfOnes(shape[..|shape| - 1]);
    }
  }

  /** In a single column of n cells, row i holds the one hook n - i. */
  lemma ColumnHooks(shape: seq<nat>)
    requires forall k :: 0 <= k < |shape| ==> shape[k] == 1
    ensures forall i :: 0 <= i < |shape| ==> HookLengths(shape)[i] == [|shape| - i]
  {
    var h := HookLengths(shape);
    forall i | 0 <= i < |h|
      ensures h[i] == [|h| - i]
    {
      CountBelowOnes(shape, i + 1);
      assert h[i][0] == Hook(shape, i, 0);
    }
  }

  /** A single column of n cells has hooks n, n-1, ..., 1 and exactly one
      standard tableau. */
  lemma SingleColumnHasOneTableau(shape: seq<nat>)
    requires forall k :: 0 <= k < |shape| ==> shape[k] == 1
    ensures HookProduct(shape) == Factorial(|shape|)
    ensures HookFormula(shape) == 1
  {
    ColumnHooks(shape);
    CountdownColumnProduct(HookLengths(shape));
    SumOfOnes(shape);
  }

  /** Shape (3, 1): hooks [[4, 2, 1], [1]], and 4! / 8 = 3 standard tableaux. */
  lemma ExampleThreeOne()
    ensures HookLengths([3, 1]) == [[4, 2, 1], [1]]
    ensures HookFormula([3, 1]) == 3
  {
    var h := HookLengths([3, 1]);
    assert CountBelow([3, 1], 0, 1) == 1;
    assert CountBelow([3, 1], 1, 1) == 0;
    assert CountBelow([3, 1], 2, 1) == 0;
    assert CountBelow([3, 1], 0, 2) == 0;
    assert h[0] == [4, 2, 1];
    assert h[1] == [1];
    assert Product([4, 2, 1]) == 8;
    assert Product([1]) == 1;
    assert MatrixProduct(h) == 8 by {
      assert h[1..] == [[1]];
      assert h[1..][1..] == [];
    }
    assert Sum([3, 1]) == 4 by {
      assert [3, 1][..1] == [3];
      assert [3][..0] == [];
    }
    assert Factorial(4) == 24;
  }

  /** Shape (2, 2): hooks [[3, 2], [2, 1]], and 4! / 12 = 2 standard tableaux. */
  lemma ExampleTwoTwo()
    ensures HookLengths([2, 2]) == [[3, 2], [2, 1]]
    ensures HookFormula([2, 2]) == 2
  {
    var h := HookLengths([2, 2]);
    assert CountBelow([2, 2], 0, 1) == 1;
    assert CountBelow([2, 2], 1, 1) == 1;
    assert CountBelow([2, 2], 0, 2) == 0;
    assert CountBelow([2, 2], 1, 2) == 0;
    assert h[0] == [3, 2];
    assert h[1] == [2, 1];
    assert Product([3, 2]) == 6;
    assert Product([2, 1]) == 2;
    assert MatrixProduct(h) == 12 by {
      assert h[1..] == [[2, 1]];
      assert h[1..][1..] == [];
    }
    assert Sum([2, 2]) == 4 by {
      assert [2, 2][..1] == [2];
      assert [2][..0] == [];
    }
    assert Factorial(4) == 24;
  }
}
