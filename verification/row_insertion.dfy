/** The Schensted bumping step on a single row (`insert_into_row`). */
module RowInsertion {
  import opened Common

  /** What one bumping step leaves behind: the updated row, and the entry
      pushed out of it (`None` when the value was appended instead). */
  datatype Bump = Bump(row: seq<int>, bumped: Option<int>)

  /** The multiset of values a bump hands on to the next row. */
  function Carried(b: Bump): multiset<int> {
    match b.bumped
    case None => multiset{}
    case Some(y) => multiset{y}
  }

  /** The left-to-right scan of the `enumerate` loop, from position `i`:
      the first position at or after `i` holding an entry strictly greater
      than `value`, or |row| when there is none. */
  function FirstGreater(row: seq<int>, value: int, i: nat): (k: nat)
    requires i <= |row|
    decreases |row| - i
    ensures i <= k <= |row|
    ensures forall m :: i <= m < k ==> row[m] <= value
    ensures k < |row| ==> value < row[k]
  {
    if i == |row| then i
    else if value < row[i] then i
    else FirstGreater(row, value, i + 1)
  }

  /** Replace the first entry greater than `value` by `value` and return the
      old entry, or append `value` and return nothing. */
  function InsertIntoRow(row: seq<int>, value: int): (b: Bump)
    ensures b.bumped.None? <==> forall m :: 0 <= m < |row| ==> row[m] <= value
    ensures b.bumped.None? ==> b.row == row + [value]
    ensures b.bumped.Some? ==>
      exists k :: 0 <= k < |row| && value < row[k] && b.bumped.value == row[k]
                && b.row == row[k := value]
                && forall m :: 0 <= m < k ==> row[m] <= value
    ensures |b.row| == |row| + (if b.bumped.None? then 1 else 0)
    ensures multiset(b.row) + Carried(b) == multiset(row) + multiset{value}
  {
    var k := FirstGreater(row, value, 0);
    if k < |row| then Bump(row[k := value], Some(row[k]))
    else Bump(row + [value], None)
  }

  /** Bumping keeps a weakly increasing row weakly increasing. */
  lemma InsertKeepsNonDecreasing(row: seq<int>, value: int)
    requires NonDecreasing(row)
    ensures NonDecreasing(InsertIntoRow(row, value).row)
  {
    var k := FirstGreater(row, value, 0);
    var b := InsertIntoRow(row, value);
    if k < |row| {
      assert b.row == row[k := value];
      forall i, j | 0 <= i < j < |b.row|
        ensures b.row[i] <= b.row[j]
      {
        if j == k { assert row[i] <= value; }
        else if i == k { assert value < row[k] <= row[j]; }
      }
    }
  }

  /** On a strictly increasing row, inserting a value not already present
      keeps the row strictly increasing, and any bumped entry is greater
      than the inserted value and no longer in the row. */
  lemma InsertKeepsIncreasing(row: seq<int>, value: int)
    requires Increasing(row)
    requires value !in row
    ensures Increasing(InsertIntoRow(row, value).row)
    ensures InsertIntoRow(row, value).bumped.Some? ==>
      value < InsertIntoRow(row, value).bumped.value
      && InsertIntoRow(row, value).bumped.value !in InsertIntoRow(row, value).row
  {
    var k := FirstGreater(row, value, 0);
    var b := InsertIntoRow(row, value);
    if k < |row| {
      assert b.row == row[k := value];
      forall i, j | 0 <= i < j < |b.row|
        ensures b.row[i] < b.row[j]
      {
        if j == k { assert row[i] <= value && row[i] != value; }
        else if i == k { assert value < row[k] < row[j]; }
      }
      forall m | 0 <= m < |b.row|
        ensures b.row[m] != row[k]
      {
        if m != k { assert row[m] != row[k]; }
      }
    } else {
      assert b.row == row + [value];
      forall i, j | 0 <= i < j < |b.row|
        ensures b.row[i] < b.row[j]
      {
        if j == |row| { assert row[i] <= value && row[i] != value; }
      }
    }
  }
}
