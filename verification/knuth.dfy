/** Elementary Knuth transformations (`knuth_step`). On a window of three
    adjacent letters x < y < z they are
      y x z <-> y z x   (the first letter lies between the two exchanged), and
      x z y <-> z x y   (the last letter lies between the two exchanged). */
module Knuth {
  /** A permutation, kept as the tuple of its one-line notation. */
  type Perm = seq<int>

  /** `p` with the letters at positions a and a + 1 exchanged. */
  function Swap(p: Perm, a: nat): (q: Perm)
    requires a + 1 < |p|
    ensures |q| == |p|
  {
    p[a := p[a + 1]][a + 1 := p[a]]
  }

  /** `b` lies strictly between `a` and `c`, in either order. */
  predicate Between(a: int, b: int, c: int) {
    (a < b < c) || (c < b < a)
  }

  /** The four tests of `knuth_step` on the window starting at `i`, each
      adding the permutation it produces. */
  function WindowMoves(p: Perm, i: nat): set<Perm>
    requires i + 2 < |p|
  {
    (if p[i] > p[i + 1] && p[i] < p[i + 2] then {Swap(p, i + 1)} else {})
    + (if p[i] < p[i + 1] && p[i] > p[i + 2] then {Swap(p, i + 1)} else {})
    + (if p[i + 2] > p[i] && p[i + 2] < p[i + 1] then {Swap(p, i)} else {})
    + (if p[i + 2] < p[i] && p[i + 2] > p[i + 1] then {Swap(p, i)} else {})
  }

  /** The `for i in range(len(perm) - 2)` loop from window `i` on. */
  function MovesFrom(p: Perm, i: nat): set<Perm>
    decreases |p| - i
  {
    if i + 2 >= |p| then {} else WindowMoves(p, i) + MovesFrom(p, i + 1)
  }

  /** Everything one pass of `knuth_step` produces from one permutation. */
  function Moves(p: Perm): set<Perm> {
    MovesFrom(p, 0)
  }

  /** The union of the moves of every member of `x`. */
  function MovesOfAll(x: set<Perm>): set<Perm> {
    set p, q | p in x && q in Moves(p) :: q
  }

  /** `knuth_step(S, N)`: every permutation one elementary transformation
      away from a member of N or of S. */
  function KnuthStep(s: set<Perm>, n: set<Perm>): set<Perm> {
    MovesOfAll(n) + MovesOfAll(s)
  }

  /** Reference relation: `q` is `p` with one elementary Knuth
      transformation applied at window i, i + 1, i + 2. Outside the window
      nothing changes; inside it either the last two letters are exchanged
      and the first lies strictly between them, or the first two are
      exchanged and the last lies strictly between them. */
  predicate MoveAt(p: Perm, q: Perm, i: int) {
    && 0 <= i && i + 2 < |p| && |q| == |p|
    && (forall m :: 0 <= m < |p| && (m < i || i + 2 < m) ==> q[m] == p[m])
    && ((q[i] == p[i] && q[i + 1] == p[i + 2] && q[i + 2] == p[i + 1]
          && Between(p[i + 1], p[i], p[i + 2]))
        || (q[i + 2] == p[i + 2] && q[i] == p[i + 1] && q[i + 1] == p[i]
          && Between(p[i], p[i + 2], p[i + 1])))
  }

  /** `p` and `q` differ by one elementary Knuth transformation somewhere. */
  ghost predicate KnuthMove(p: Perm, q: Perm) {
    exists i :: MoveAt(p, q, i)
  }

  /** Exchanging positions a, a + 1 is the same as the pointwise description. */
  lemma SwapIff(p: Perm, q: Perm, a: nat)
    requires a + 1 < |p|
    ensures q == Swap(p, a) <==>
      |q| == |p| && q[a] == p[a + 1] && q[a + 1] == p[a]
      && forall m :: 0 <= m < |p| && m != a && m != a + 1 ==> q[m] == p[m]
  {
    if |q| == |p| && q[a] == p[a + 1] && q[a + 1] == p[a]
      && forall m :: 0 <= m < |p| && m != a && m != a + 1 ==> q[m] == p[m]
    {
      var r := Swap(p, a);
      assert forall m :: 0 <= m < |p| ==> q[m] == r[m];
    }
  }

  /** The four tests at window i produce exactly the transformations at i. */
  lemma WindowMovesIff(p: Perm, q: Perm, i: nat)
    requires i + 2 < |p|
    ensures q in WindowMoves(p, i) <==> MoveAt(p, q, i)
  {
    SwapIff(p, q, i);
    SwapIff(p, q, i + 1);
  }

  /** The loop from window i on produces exactly the transformations at
      windows i and later. */
  lemma {:induction false} MovesFromIff(p: Perm, q: Perm, i: nat)
    ensures q in MovesFrom(p, i) <==> exists j :: i <= j && MoveAt(p, q, j)
    decreases |p| - i
  {
    if i + 2 < |p| {
      WindowMovesIff(p, q, i);
      MovesFromIff(p, q, i + 1);
      if exists j :: i <= j && MoveAt(p, q, j) {
        var j :| i <= j && MoveAt(p, q, j);
        if j != i {
          assert i + 1 <= j;
        }
      }
    }
  }

  /** One pass over a permutation produces exactly its Knuth neighbours. */
  lemma MovesIff(p: Perm, q: Perm)
    ensures q in Moves(p) <==> KnuthMove(p, q)
  {
    MovesFromIff(p, q, 0);
  }

  /** `knuth_step(S, N)` holds exactly the Knuth neighbours of members of S or N. */
  lemma KnuthStepIff(s: set<Perm>, n: set<Perm>, q: Perm)
    ensures q in KnuthStep(s, n) <==> exists p :: p in s + n && KnuthMove(p, q)
  {
    if q in KnuthStep(s, n) {
      var p :| p in s + n && q in Moves(p);
      MovesIff(p, q);
    }
    if exists p :: p in s + n && KnuthMove(p, q) {
      var p :| p in s + n && KnuthMove(p, q);
      MovesIff(p, q);
      assert q in MovesOfAll(s) || q in MovesOfAll(n);
    }
  }

  /** With N empty: `knuth_step(S, {})` holds exactly the Knuth neighbours
      of members of S. */
  lemma KnuthStepFrom(s: set<Perm>, q: Perm)
    ensures q in KnuthStep(s, {}) <==> exists p :: p in s && KnuthMove(p, q)
  {
    KnuthStepIff(s, {}, q);
    assert s + {} == s;
  }

  /** From a single permutation, `knuth_step` produces exactly its moves. */
  lemma KnuthStepSingle(p: Perm)
    ensures KnuthStep({p}, {}) == Moves(p)
  {
    assert MovesOfAll({}) == {};
  }

  /** Only the union of S and N matters, not how it is split. */
  lemma KnuthStepOfUnion(s: set<Perm>, n: set<Perm>)
    ensures KnuthStep(s, n) == KnuthStep(s + n, {})
  {
    forall q | q in KnuthStep(s + n, {})
      ensures q in KnuthStep(s, n)
    {
      var p :| p in s + n && q in Moves(p);
      assert q in MovesOfAll(s) || q in MovesOfAll(n);
    }
  }

  /** A larger starting set reaches at least as much. */
  lemma KnuthStepMonotone(a: set<Perm>, b: set<Perm>)
    requires a <= b
    ensures KnuthStep(a, {}) <= KnuthStep(b, {})
  {
    forall q | q in KnuthStep(a, {})
      ensures q in KnuthStep(b, {})
    {
      var p :| p in a && q in Moves(p);
      assert q in MovesOfAll(b);
    }
  }

  /** Every transformation can be undone by a transformation at the same window. */
  lemma MoveReversible(p: Perm, q: Perm, i: int)
    requires MoveAt(p, q, i)
    ensures MoveAt(q, p, i)
  {
  }

  /** Knuth neighbourhood is symmetric: if q is produced from p, then p is
      produced from q. */
  lemma KnuthStepSymmetric(p: Perm, q: Perm)
    requires q in KnuthStep({p}, {})
    ensures p in KnuthStep({q}, {})
  {
    KnuthStepIff({p}, {}, q);
    var i :| MoveAt(p, q, i);
    MoveReversible(p, q, i);
    assert q in {q} + {} && KnuthMove(q, p);
    KnuthStepIff({q}, {}, p);
  }

  /** A transformation changes the permutation, keeps its length and
      rearranges its letters without adding or losing any. */
  lemma MovePreserves(p: Perm, q: Perm, i: int)
    requires MoveAt(p, q, i)
    ensures q != p
    ensures |q| == |p| && multiset(q) == multiset(p)
  {
    if q[i] == p[i] && q[i + 1] == p[i + 2] && q[i + 2] == p[i + 1]
      && Between(p[i + 1], p[i], p[i + 2])
    {
      SwapIff(p, q, i + 1);
      assert q[i + 1] != p[i + 1];
    } else {
      SwapIff(p, q, i);
      assert q[i] != p[i];
    }
  }

  /** Every permutation `knuth_step` produces is a rearrangement of the
      letters of a member of S or N, and differs from it. */
  lemma KnuthStepPreserves(s: set<Perm>, n: set<Perm>, q: Perm)
    requires q in KnuthStep(s, n)
    ensures exists p :: p in s + n && p != q && multiset(p) == multiset(q)
  {
    KnuthStepIff(s, n, q);
    var p :| p in s + n && KnuthMove(p, q);
    var i :| MoveAt(p, q, i);
    MovePreserves(p, q, i);
  }

  /** If every member of S holds the letters `m`, so does every permutation
      `knuth_step(S, {})` produces. */
  lemma KnuthStepKeepsLetters(s: set<Perm>, m: multiset<int>)
    requires forall p :: p in s ==> multiset(p) == m
    ensures forall q :: q in KnuthStep(s, {}) ==> multiset(q) == m
  {
    forall q | q in KnuthStep(s, {})
      ensures multiset(q) == m
    {
      KnuthStepPreserves(s, {}, q);
    }
  }

  /** Fewer than three letters leave no window to transform. */
  lemma ShortHasNoMoves(p: Perm)
    requires |p| < 3
    ensures Moves(p) == {}
  {
  }

  /** From 1 3 2 4 the transformations reach exactly 3 1 2 4 and 1 3 4 2. */
  lemma ExampleMovesOfOneThreeTwoFour()
    ensures Moves([1, 3, 2, 4]) == {[3, 1, 2, 4], [1, 3, 4, 2]}
  {
    var p := [1, 3, 2, 4];
    assert Swap(p, 0) == [3, 1, 2, 4];
    assert Swap(p, 2) == [1, 3, 4, 2];
    assert WindowMoves(p, 0) == {[3, 1, 2, 4]};
    assert WindowMoves(p, 1) == {[1, 3, 4, 2]};
    assert MovesFrom(p, 2) == {};
  }
}
