# Young tableaux, smooth permutations and Knuth classes — a Dafny model

The program reads a permutation of 1..n. It builds the Robinson–Schensted
pair (P, Q) of tableaux by Schensted row insertion and takes the shape of P.
It then counts the standard Young tableaux of that shape with the
hook-length formula.

Starting from the input, it grows two sets of permutations:

- S holds the smooth ones, which avoid the patterns 3412 and 4231;
- N holds all the others.

Each round applies every elementary Knuth transformation to every member of
S and N, and sorts the results into S or N. It stops when the two sets
together hold as many permutations as the hook-length formula gave.

The model follows the program's two files:

| module | file | what it covers |
|---|---|---|
| `Common` | — | `Option`, ordered and distinct sequences, [1..n], sums, products, factorials |
| `RowInsertion` | `young.py` | `insert_into_row`: one bumping step |
| `Correspondence` | `young.py` | `robinson_schensted` as a fold of insertion and recording steps, and `get_shape` |
| `CorrespondenceExamples` | `young.py` | P and Q for 1 3 2 4 and 2 1 4 3, unfolded step by step |
| `Hooks` | `young.py` | `hook_lengths` and `hook_formula` |
| `Smoothness` | `young.py` | `itertools.combinations`, `extract_subpermutations` and `ifsmooth` |
| `Knuth` | `young.py` | `knuth_step`, and a reference relation of elementary Knuth transformations |
| `Driver` | `main.py` | the permutation check, the S/N initialisation, the `for` loop over a Knuth step, and the `while` loop |
| `DriverExamples` | `main.py` | one round from 1 3 2 4 reaches the hook count 3 |

Design choices:

- Python lists and tuples are Dafny sequences.
- Python sets of tuples are Dafny sets of sequences.
- Code that mutates lists in place becomes functions that return the new value.
- `itertools.combinations(range(lo, hi), k)` is written out as `Smoothness.Combinations`. It lists the tuples in the same lexicographic order.
- The test `sorted(p) == list(range(1, n + 1))` is modelled as equality of multisets. Two lists sort to the same list exactly when they hold the same multiset. `Driver.StandardPermutationIff` shows this test accepts exactly the distinct sequences with values in 1..n.
- Python's `//` floors. On the non-negative values the hook formula uses, it agrees with Dafny's `/`.
- The `for` loop over a set takes its elements in an unspecified order. `Driver.AbsorbAll` picks them with `:|` and proves that the result does not depend on the order.
- The `while` loop terminates in the model without fuel. While the loop runs, each round either:
  - raises the assertion (`CountExceeded`);
  - adds nothing, so that every later round adds nothing either (`Stalled`: the Python loop spins forever there);
  - or strictly grows `len(S) + len(N)` towards the target.

## Model

| member | source | states |
|---|---|---|
| `RowInsertion.FirstGreater` | young.py:10-13 | The scan stops at the first position whose entry is strictly greater than the value, every entry before it being at most the value. It returns the row's length when there is no such entry. |
| `RowInsertion.InsertIntoRow` | young.py:5-15 | Nothing is bumped exactly when every entry is at most the value. In that case the value is appended. Otherwise the first strictly greater entry is replaced by the value and returned. The row grows by one exactly when nothing is bumped. Row plus bumped value hold the old row plus the value, as multisets. |
| `RowInsertion.InsertKeepsNonDecreasing` | young.py:10-15 | Bumping keeps a weakly increasing row weakly increasing. |
| `RowInsertion.InsertKeepsIncreasing` | young.py:10-15 | For a value not in a strictly increasing row, the row stays strictly increasing. A bumped entry is greater than the inserted value and leaves the row. |
| `Correspondence.InsertFrom` | young.py:28-38 | The `while` loop ends at a row at or below the start row. That row gains exactly one cell, or a new one-cell row is opened below the last. Every other row keeps its length, and the rows above the start row are untouched. |
| `Correspondence.BumpEntries` | young.py:30-33 | One bumping step in row r loses no value. The tableau plus the carried value hold the old entries plus the inserted value. |
| `Correspondence.InsertFromEntries` | young.py:28-38 | After a whole insertion, P holds exactly its old entries plus the inserted value. |
| `Correspondence.InsertFromKeepsNonDecreasing` | young.py:28-38 | An insertion keeps every row of P weakly increasing. |
| `Correspondence.Record` | young.py:40-44 | The step number is appended to Q in the row where the insertion ended, or in a new row when that row is new. All other rows are unchanged. |
| `Correspondence.RecordEntries` | young.py:40-44 | Recording adds exactly the step number to Q's entries. |
| `Correspondence.RecordKeepsIncreasing` | young.py:24-44 | Take step k with every entry of Q in 1..k-1. Recording it keeps Q's rows strictly increasing and all entries in 1..k. |
| `Correspondence.Step` | young.py:24-44 | One step of the `for` loop keeps P and Q at the same number of rows. |
| `Correspondence.StepKeepsShape` | young.py:24-44 | P and Q grow in the same row, so they keep identical shape with non-empty rows. |
| `Correspondence.StepKeepsConsistent` | young.py:24-44 | One step preserves the fold invariant: same shape, P weakly and Q strictly increasing, Q's entries in 1..k. P gains the value and Q gains the step number. |
| `Correspondence.RSPrefix` | young.py:24-44 | After any number of steps P and Q have the same number of rows. |
| `Correspondence.PrefixConsistent` | young.py:24-44 | After k steps the fold invariant holds. P holds exactly the first k values and Q exactly 1..k. |
| `Correspondence.RobinsonSchensted` | young.py:17-46 | P and Q have the same number of rows. |
| `Correspondence.RobinsonSchenstedInvariant` | young.py:17-46 | P and Q have identical shape with non-empty rows. P holds exactly the input values and Q exactly 1..n. P's rows are weakly increasing and Q's rows strictly increasing. |
| `Correspondence.DistinctGivesIncreasingRows` | young.py:17-46 | For input without repeated values, P's rows are strictly increasing. |
| `Correspondence.GetShape` | young.py:55-59 | Returns one length per row of the tableau, entry i being the length of row i. `Correspondence.ShapeSumsToLength` says what it gives for P. |
| `Correspondence.ShapeCountsEntries` | young.py:55-59 | The row lengths `get_shape` returns sum to the number of entries of the tableau. |
| `Correspondence.ShapeSumsToLength` | young.py:55-59 | The shape of P has positive parts summing to n and equals the shape of Q. |
| `CorrespondenceExamples.ExampleOneThreeTwoFour` | young.py:17-46 | 1 3 2 4 gives P = Q = [[1, 2, 4], [3]]. |
| `CorrespondenceExamples.ExampleShapeThreeOne` | young.py:55-59 | The shape of 1 3 2 4 is (3, 1). |
| `CorrespondenceExamples.ExampleTwoOneFourThree` | young.py:17-46 | 2 1 4 3 gives P = Q = [[1, 3], [2, 4]]. |
| `Hooks.HookLengths` | young.py:62-81 | The hook matrix has one row per part, row i has shape[i] entries, and every hook is at least 1. |
| `Hooks.CountBelow` | young.py:77 | Counts the rows from index `from` to the last whose length exceeds j. With `from` = i + 1 this is the `down` generator. `Hooks.CountBelowIsCardinality` equates it with the size of the set of those rows. |
| `Hooks.CountBelowIsCardinality` | young.py:77 | The `down` count equals the number of lower rows that reach column j. |
| `Hooks.Hook` | young.py:77-79 | The hook at cell (i, j): 1 for the cell, shape[i] - j - 1 for the cells to its right, and the `down` count from row i + 1. `Hooks.HookLengthsDefinition` gives the closed form. |
| `Hooks.HookLengthsDefinition` | young.py:73-79 | Entry (i, j) is 1, plus the cells to its right, plus the lower rows k with j < shape[k]. |
| `Hooks.HookProduct` | young.py:94-98 | The product of all hook lengths is at least 1, so the division never divides by zero. |
| `Hooks.HookFormula` | young.py:83-101 | The result is the floor of n! over the hook product, n being the sum of the parts. |
| `Hooks.SingleRowHasOneTableau` | young.py:83-101 | A single row of n cells has hook product n! and hook count 1. |
| `Hooks.ColumnHooks` | young.py:73-79 | In a single column of n cells, row i holds the one hook n - i. |
| `Hooks.SingleColumnHasOneTableau` | young.py:83-101 | A single column of n cells has hook product n! and hook count 1. |
| `Hooks.ExampleThreeOne` | young.py:62-101 | Shape (3, 1) has hooks [[4, 2, 1], [1]] and hook count 3. |
| `Hooks.ExampleTwoTwo` | young.py:62-101 | Shape (2, 2) has hooks [[3, 2], [2, 1]] and hook count 2. |
| `Smoothness.Combinations` | young.py:116 | Every listed tuple has k indices, all in lo..hi-1. |
| `Smoothness.CombinationsAscending` | young.py:116 | Every listed tuple is strictly increasing. |
| `Smoothness.CombinationsComplete` | young.py:116 | Every strictly increasing k-tuple of indices in lo..hi-1 is listed. |
| `Smoothness.CombinationsExactly` | young.py:116 | A tuple is listed exactly when it has k strictly increasing indices in lo..hi-1. |
| `Smoothness.ExtractSubpermutations` | young.py:111-119 | There is one subsequence per combination. Each has exactly `length` entries, so the length assertion in `ifsmooth` never fails. |
| `Smoothness.ExtractSubpermutationsExactly` | young.py:111-119 | The subsequences are exactly the readings of p at strictly increasing positions. |
| `Smoothness.Pattern3412` | young.py:128 | Holds of a four-entry sequence s exactly when s[1] > s[0] > s[3] > s[2], the first test of `ifsmooth`. |
| `Smoothness.Pattern4231` | young.py:130 | Holds of a four-entry sequence s exactly when s[0] > s[2] > s[1] > s[3], the second test. |
| `Smoothness.NoPatternFrom` | young.py:126-132 | Scans the subsequences from index m on. It is false at the first one matching either test and true when none does. `Smoothness.NoPatternFromIff` characterises it. |
| `Smoothness.NoPatternFromIff` | young.py:126-132 | The scan returns true exactly when no remaining subsequence shows 3412 or 4231. |
| `Smoothness.PatternGivesForbidden` | young.py:126-131 | A subsequence the scan rejects comes from positions i < j < k < l that show pattern 3412 or 4231. |
| `Smoothness.ForbiddenGivesPattern` | young.py:126-131 | Positions showing pattern 3412 or 4231 appear as a subsequence the scan rejects. |
| `Smoothness.IfSmooth` | young.py:121-132 | Runs that scan over all length-4 subsequences from the first. `Smoothness.SmoothIff` characterises it by positions in p. |
| `Smoothness.SmoothIff` | young.py:121-132 | `ifsmooth(p)` holds exactly when no positions i < j < k < l satisfy p[j] > p[i] > p[l] > p[k] (3412) or p[i] > p[k] > p[j] > p[l] (4231). |
| `Smoothness.ShortIsSmooth` | young.py:121-132 | Fewer than four letters are always smooth. |
| `Smoothness.IncreasingIsSmooth` | young.py:121-132 | An increasing sequence is smooth. |
| `Smoothness.ExampleThreeFourOneTwo` | young.py:128-129 | 3 4 1 2 is not smooth. |
| `Smoothness.ExampleFourTwoThreeOne` | young.py:130-131 | 4 2 3 1 is not smooth. |
| `Smoothness.ExampleOneThreeTwoFour` | young.py:121-132 | 1 3 2 4 is smooth. |
| `Knuth.WindowMoves` | young.py:141-158 | The permutations the four tests at window i add. Positions i + 1 and i + 2 are exchanged when p[i] lies strictly between them. Positions i and i + 1 are exchanged when p[i + 2] lies strictly between those two. `Knuth.WindowMovesIff` equates it with the reference relation. |
| `Knuth.MovesFrom` | young.py:139-158 | The union of the window moves over windows i up to len(p) - 3. It is empty when fewer than three letters remain from i. |
| `Knuth.WindowMovesIff` | young.py:139-158 | The four tests at window i produce exactly the elementary transformations at that window. |
| `Knuth.MovesFromIff` | young.py:139-158 | The loop from window i on produces exactly the transformations at windows i and later. |
| `Knuth.MovesIff` | young.py:137-158 | One pass over a permutation produces exactly its Knuth neighbours. |
| `Knuth.KnuthStep` | young.py:134-183 | The moves of every member of N, together with the moves of every member of S. `Knuth.KnuthStepIff` equates it with the Knuth neighbours of S ∪ N. |
| `Knuth.KnuthStepIff` | young.py:134-183 | `knuth_step(S, N)` holds exactly the Knuth neighbours of members of S or N. |
| `Knuth.KnuthStepFrom` | young.py:134-183 | With N empty, `knuth_step(S, N)` holds exactly the Knuth neighbours of members of S. |
| `Knuth.KnuthStepSingle` | young.py:134-183 | From one permutation, `knuth_step` gives exactly that permutation's moves. |
| `Knuth.KnuthStepOfUnion` | young.py:134-183 | The result depends only on S together with N, not on how they are split. |
| `Knuth.KnuthStepMonotone` | young.py:134-183 | A larger starting set produces a superset. |
| `Knuth.KnuthStepSymmetric` | young.py:134-183 | If q is produced from p, then p is produced from q. |
| `Knuth.MovePreserves` | young.py:142-158 | A transformation changes the permutation, keeps its length and rearranges its letters. |
| `Knuth.KnuthStepPreserves` | young.py:134-183 | Every produced permutation rearranges the letters of some member of S or N and differs from it. |
| `Knuth.KnuthStepKeepsLetters` | young.py:134-183 | If all of S holds the same letters, so does everything `knuth_step(S, {})` produces. |
| `Knuth.ShortHasNoMoves` | young.py:139 | Fewer than three letters give no window and no move. |
| `Knuth.ExampleMovesOfOneThreeTwoFour` | young.py:139-158 | From 1 3 2 4 exactly 3 1 2 4 and 1 3 4 2 are produced. |
| `Driver.IsStandardPermutation` | main.py:13 | Holds when p contains each of 1..n exactly once, as equality of multisets. `Driver.StandardPermutationIff` gives the characterisation. |
| `Driver.StandardPermutationIff` | main.py:11-14 | The permutation test on the input accepts exactly the sequences of distinct values in 1..n. |
| `Driver.ClassifiedSize` | main.py:33-50 | When S is all smooth and N all non-smooth, they are disjoint. `len(S) + len(N)` then counts distinct permutations. |
| `Driver.Seed` | main.py:33-41 | The input alone is in S ∪ N. It is in S exactly when smooth, the sets are classified, and their size is 1. |
| `Driver.PendingShrinks` | main.py:45 | Taking one permutation out of the loop's pending set keeps pending and done complementary and shrinks pending. |
| `Driver.Absorb` | main.py:45-50 | S and N after a whole set d is sorted in: S gains the members of d that `ifsmooth` accepts, and N gains the rest. `Driver.AbsorbAll` shows the loop computes it. |
| `Driver.AbsorbOneMore` | main.py:45-50 | Sorting one more permutation in adds it to S if smooth and to N otherwise. |
| `Driver.AbsorbFacts` | main.py:45-50 | Sorting a set in adds exactly that set to S ∪ N and keeps S smooth and N non-smooth. |
| `Driver.AbsorbAll` | main.py:45-50 | The `for` loop, in any order, adds every smooth member of the set to S and every other member to N. |
| `Driver.Round` | main.py:45-50 | One pass adds to S the smooth members of `knuth_step(S, N)` and to N the others. S ∪ N grows by exactly the Knuth step, and the classification is kept. |
| `Driver.Closure` | main.py:44-50 | The union S ∪ N after k rounds from the seed. Round k adds the Knuth neighbours of everything collected so far. `Driver.ClosureIff` characterises it by reachability. |
| `Driver.ClosureOne` | main.py:44-50 | The first round adds exactly the moves of the input. |
| `Driver.ClosureSound` | main.py:44-50 | Whatever k rounds collect is reachable from the input by at most k elementary transformations. |
| `Driver.ClosureComplete` | main.py:44-50 | Whatever is reachable by at most k transformations is collected in k rounds. |
| `Driver.ClosureIff` | main.py:44-50 | k rounds collect exactly the permutations reachable in at most k transformations. |
| `Driver.ReachableGrows` | main.py:44-50 | Reachable in k transformations implies reachable in k + 1. |
| `Driver.ClosureKeepsLetters` | main.py:44-50 | Every collected permutation rearranges the letters of the input. |
| `Driver.ClosureKeepsStandard` | main.py:44-50 | From a permutation of 1..n only permutations of 1..n are collected. |
| `Driver.RoundAdvances` | main.py:44-52 | A round adds to S ∪ N exactly the Knuth neighbours of S ∪ N, which is how the k-th closure becomes the next. It never shrinks the sets. If it leaves their size unchanged, S ∪ N is closed under Knuth steps. |
| `Driver.Run` | main.py:12-52 | A non-permutation is rejected exactly when the permutation test fails. Otherwise the target is the hook count of the shape of P, S is smooth and N is not, and S ∪ N is the closure after the rounds run. On normal exit the size is at least the target, and exactly the target after at least one round. The assertion fails only when the size exceeds the target. A stall leaves the size below the target with S ∪ N closed under Knuth steps. |
| `DriverExamples.ExampleRoundFromOneThreeTwoFour` | main.py:44-50 | One round from 1 3 2 4 gives S ∪ N = {1 3 2 4, 3 1 2 4, 1 3 4 2}. |
| `DriverExamples.ExampleClassOfOneThreeTwoFour` | main.py:24-52 | After that round S ∪ N has 3 members, the hook count of shape (3, 1), so the loop stops. |

## Left out

- Printing is not modelled: `print_tableau`, `print_hook_lengths` and every `print` of the driver produce text only.
- Reading and parsing the input line (`input`, `split`, `int`) and the `except Exception` handler are not modelled. The model starts from the parsed integer list and reports the two failures as `Outcome` values.
- The unused `numpy` import is not modelled.
- Column strictness of P and Q is not proved, nor that the shape is weakly decreasing. Row order, equal shapes and entry contents are proved. The column-strict P and Q of 2 1 4 3 are shown by example.
- Hooks.HookFormula: it states the floor of n! over the hook product, as Python's `//` computes it. That the division is exact and counts the standard Young tableaux is not proved for general shapes. It is shown for single rows, single columns and the shapes (3, 1) and (2, 2).
- Driver.Run: Knuth's theorem is not proved. By that theorem transformations keep P, so S ∪ N never exceeds the hook count and the loop always ends with equality. The model therefore keeps the `CountExceeded` and `Stalled` outcomes instead of ruling them out. In a `Stalled` state the Python loop would repeat the same round forever; the model returns instead.
- `Smoothness.ExtractSubpermutations` proves that every subsequence has length 4, so the assertion in `ifsmooth` (young.py:127) can never fail and its error path is not modelled.
