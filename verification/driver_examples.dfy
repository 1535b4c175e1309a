/** A worked run of the driver's loop on 1 3 2 4, whose insertion tableau
    has shape (3, 1). */
module DriverExamples {
  import Knuth
  import Hooks
  import opened Driver

  /** One round from 1 3 2 4 reaches 3 1 2 4 and 1 3 4 2. */
  lemma ExampleRoundFromOneThreeTwoFour()
    ensures Closure([1, 3, 2, 4], 1) == {[1, 3, 2, 4], [3, 1, 2, 4], [1, 3, 4, 2]}
  {
    ClosureOne([1, 3, 2, 4]);
    Knuth.ExampleMovesOfOneThreeTwoFour();
  }

  /** Three distinct permutations. */
  lemma ThreeDistinct()
    ensures |{[1, 3, 2, 4], [3, 1, 2, 4], [1, 3, 4, 2]}| == 3
  {
    var a, b, c: seq<int> := [1, 3, 2, 4], [3, 1, 2, 4], [1, 3, 4, 2];
    assert a[0] != b[0] && a[2] != c[2] && b[0] != c[0];
  }

  /** After that one round S and N together hold as many permutations as
      there are standard tableaux of shape (3, 1), so the `while` loop stops. */
  lemma ExampleClassOfOneThreeTwoFour()
    ensures |Closure([1, 3, 2, 4], 1)| == Hooks.HookFormula([3, 1]) == 3
  {
    ExampleRoundFromOneThreeTwoFour();
    ThreeDistinct();
    Hooks.ExampleThreeOne();
  }
}
