/** Worked examples of the correspondence on the inputs 1 3 2 4 and 2 1 4 3,
    unfolded one insertion at a time. */
module CorrespondenceExamples {
  import opened Common
  import opened RowInsertion
  import opened Correspondence

  /** Example: 1 3 2 4 has P = Q = [[1, 2, 4], [3]]. */
  lemma ExampleOneThreeTwoFour()
    ensures RobinsonSchensted([1, 3, 2, 4]) == Tableaux([[1, 2, 4], [3]], [[1, 2, 4], [3]])
  {
    PrefixOneThreeTwo();
    StepAppendsFour();
  }

  /** The shape of 1 3 2 4 is (3, 1). */
  lemma ExampleShapeThreeOne()
    ensures var shape := GetShape(RobinsonSchensted([1, 3, 2, 4]).p);
      |shape| == 2 && shape[0] == 3 && shape[1] == 1
  {
    ExampleOneThreeTwoFour();
  }

  /** One more letter of the input is one more insertion step. */
  lemma PrefixUnfold(perm: seq<int>, k: nat)
    requires 0 < k <= |perm|
    ensures RSPrefix(perm, k) == Step(RSPrefix(perm, k - 1), perm[k - 1], k)
  {
  }

  lemma PrefixOne()
    ensures RSPrefix([1, 3, 2, 4], 1) == Tableaux([[1]], [[1]])
  {
  }

  lemma PrefixOneThree()
    ensures RSPrefix([1, 3, 2, 4], 2) == Tableaux([[1, 3]], [[1, 2]])
  {
    PrefixOne();
    PrefixUnfold([1, 3, 2, 4], 2);
    assert RSPrefix([1, 3, 2, 4], 2) == Step(Tableaux([[1]], [[1]]), 3, 2);
    StepAppendsToFirstRow();
  }

  lemma PrefixOneThreeTwo()
    ensures RSPrefix([1, 3, 2, 4], 3) == Tableaux([[1, 2], [3]], [[1, 2], [3]])
  {
    PrefixOneThree();
    PrefixUnfold([1, 3, 2, 4], 3);
    assert RSPrefix([1, 3, 2, 4], 3) == Step(Tableaux([[1, 3]], [[1, 2]]), 2, 3);
    StepBumpsThree();
  }

  lemma StepAppendsToFirstRow()
    ensures Step(Tableaux([[1]], [[1]]), 3, 2) == Tableaux([[1, 3]], [[1, 2]])
  {
    assert FirstGreater([1], 3, 0) == 1;
    assert InsertIntoRow([1], 3) == Bump([1, 3], None);
    assert [[1]][0 := [1, 3]] == [[1, 3]];
    assert [1] + [2] == [1, 2];
    assert [[1]][0 := [1, 2]] == [[1, 2]];
  }

  lemma StepBumpsThree()
    ensures Step(Tableaux([[1, 3]], [[1, 2]]), 2, 3) == Tableaux([[1, 2], [3]], [[1, 2], [3]])
  {
    assert FirstGreater([1, 3], 2, 0) == 1;
    assert InsertIntoRow([1, 3], 2) == Bump([1, 2], Some(3));
    assert [[1, 3]][0 := [1, 2]] == [[1, 2]];
    assert InsertFrom([[1, 2]], 3, 1) == Placed([[1, 2], [3]], 1);
  }

  lemma StepAppendsFour()
    ensures Step(Tableaux([[1, 2], [3]], [[1, 2], [3]]), 4, 4) == Tableaux([[1, 2, 4], [3]], [[1, 2, 4], [3]])
  {
    assert FirstGreater([1, 2], 4, 0) == 2;
    assert InsertIntoRow([1, 2], 4) == Bump([1, 2, 4], None);
    assert [[1, 2], [3]][0 := [1, 2, 4]] == [[1, 2, 4], [3]];
    assert [1, 2] + [4] == [1, 2, 4];
  }

  /** Example: 2 1 4 3 has P = Q = [[1, 3], [2, 4]], whose rows and columns increase. */
  lemma ExampleTwoOneFourThree()
    ensures RobinsonSchensted([2, 1, 4, 3]) == Tableaux([[1, 3], [2, 4]], [[1, 3], [2, 4]])
  {
    PrefixTwoOneFour();
    StepBumpsFour();
  }

  lemma PrefixTwo()
    ensures RSPrefix([2, 1, 4, 3], 1) == Tableaux([[2]], [[1]])
  {
  }

  lemma PrefixTwoOne()
    ensures RSPrefix([2, 1, 4, 3], 2) == Tableaux([[1], [2]], [[1], [2]])
  {
    PrefixTwo();
    PrefixUnfold([2, 1, 4, 3], 2);
    assert RSPrefix([2, 1, 4, 3], 2) == Step(Tableaux([[2]], [[1]]), 1, 2);
    StepBumpsTwo();
  }

  lemma PrefixTwoOneFour()
    ensures RSPrefix([2, 1, 4, 3], 3) == Tableaux([[1, 4], [2]], [[1, 3], [2]])
  {
    PrefixTwoOne();
    PrefixUnfold([2, 1, 4, 3], 3);
    assert RSPrefix([2, 1, 4, 3], 3) == Step(Tableaux([[1], [2]], [[1], [2]]), 4, 3);
    StepAppendsFourToFirstRow();
  }

  lemma StepBumpsTwo()
    ensures Step(Tableaux([[2]], [[1]]), 1, 2) == Tableaux([[1], [2]], [[1], [2]])
  {
    assert FirstGreater([2], 1, 0) == 0;
    assert InsertIntoRow([2], 1) == Bump([1], Some(2));
    assert [[2]][0 := [1]] == [[1]];
    assert InsertFrom([[1]], 2, 1) == Placed([[1], [2]], 1);
  }

  lemma StepAppendsFourToFirstRow()
    ensures Step(Tableaux([[1], [2]], [[1], [2]]), 4, 3) == Tableaux([[1, 4], [2]], [[1, 3], [2]])
  {
    assert FirstGreater([1], 4, 0) == 1;
    assert InsertIntoRow([1], 4) == Bump([1, 4], None);
    assert [[1], [2]][0 := [1, 4]] == [[1, 4], [2]];
    assert [1] + [3] == [1, 3];
    assert [[1], [2]][0 := [1, 3]] == [[1, 3], [2]];
  }

  lemma StepBumpsFour()
    ensures Step(Tableaux([[1, 4], [2]], [[1, 3], [2]]), 3, 4) == Tableaux([[1, 3], [2, 4]], [[1, 3], [2, 4]])
  {
    assert FirstGreater([1, 4], 3, 0) == 1;
    assert InsertIntoRow([1, 4], 3) == Bump([1, 3], Some(4));
    assert FirstGreater([2], 4, 0) == 1;
    assert InsertIntoRow([2], 4) == Bump([2, 4], None);
    assert [[1, 4], [2]][0 := [1, 3]] == [[1, 3], [2]];
    assert [[1, 3], [2]][1 := [2, 4]] == [[1, 3], [2, 4]];
    assert InsertFrom([[1, 3], [2]], 4, 1) == Placed([[1, 3], [2, 4]], 1);
    assert [2] + [4] == [2, 4];
  }
}
