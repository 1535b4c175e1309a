/** The program's driver: validate the input permutation, classify it as
    smooth or not, and grow the smooth set S and the non-smooth set N by
    Knuth transformations until together they hold as many permutations as
    the hook-length formula gives for the shape of its insertion tableau. */
module Driver {
  import opened Common
  import Correspondence
  import Hooks
  import opened Smoothness
  import opened Knuth

  /** `sorted(p) == list(range(1, n + 1))`: p rearranges 1..n. Two lists
      sort to the same list exactly when they hold the same multiset. */
  predicate IsStandardPermutation(p: seq<int>) {
    multiset(p) == multiset(Iota(|p|))
  }

  /** The sorting test accepts exactly the sequences whose letters are
      distinct and lie in 1..n. */
  lemma StandardPermutationIff(p: seq<int>)
    ensures IsStandardPermutation(p) <==>
      Distinct(p) && forall m :: 0 <= m < |p| ==> 1 <= p[m] <= |p|
  {
    var n := |p|;
    var r := Iota(n);
    IotaValues(n);
    assert Distinct(r);
    DistinctMultiplicity(r);
    DistinctMultiplicity(p);
    if IsStandardPermutation(p) {
      forall m | 0 <= m < n
        ensures 1 <= p[m] <= n
      {
        assert p[m] in multiset(r);
      }
    }
    if Distinct(p) && forall m :: 0 <= m < n ==> 1 <= p[m] <= n {
      var sp := set x | x in p;
      var sr := set x | x in r;
      DistinctCardinality(p);
      DistinctCardinality(r);
      SubsetOfEqualSize(sp, sr);
      forall v
        ensures multiset(p)[v] == multiset(r)[v]
      {
        DistinctCount(p, v);
        DistinctCount(r, v);
        assert v in p <==> v in sp;
        assert v in r <==> v in sr;
      }
    }
  }

  /** The two sets S (smooth) and N (non-smooth) of the main loop. */
  datatype Universe = Universe(smooth: set<Perm>, nonSmooth: set<Perm>) {
    /** S together with N. */
    function All(): set<Perm> {
      smooth + nonSmooth
    }

    /** `len(S) + len(N)`. */
    function Size(): nat {
      |smooth| + |nonSmooth|
    }
  }

  /** Every member of S is smooth and no member of N is. */
  predicate Classified(u: Universe) {
    && (forall p :: p in u.smooth ==> IfSmooth(p))
    && (forall p :: p in u.nonSmooth ==> !IfSmooth(p))
  }

  /** Classified sets are disjoint, so `len(S) + len(N)` counts distinct
      permutations. */
  lemma ClassifiedSize(u: Universe)
    requires Classified(u)
    ensures u.smooth !! u.nonSmooth
    ensures u.Size() == |u.All()|
  {
    assert u.smooth * u.nonSmooth == {};
  }

  /** The initialisation: the input goes into S if smooth and into N otherwise. */
  function Seed(perm: Perm): (u: Universe)
    ensures u.All() == {perm}
    ensures Classified(u)
    ensures u.Size() == 1
    ensures perm in u.smooth <==> IfSmooth(perm)
  {
    if IfSmooth(perm) then Universe({perm}, {}) else Universe({}, {perm})
  }

  /** The members of `d` that `ifsmooth` accepts. */
  function SmoothOnes(d: set<Perm>): set<Perm> {
    set q | q in d && IfSmooth(q)
  }

  /** The members of `d` that `ifsmooth` rejects. */
  function NonSmoothOnes(d: set<Perm>): set<Perm> {
    set q | q in d && !IfSmooth(q)
  }

  /** S and N after every member of `d` has been sorted into one of them. */
  function Absorb(u: Universe, d: set<Perm>): Universe {
    Universe(u.smooth + SmoothOnes(d), u.nonSmooth + NonSmoothOnes(d))
  }

  /** The state of the `for` loop over `d`: `done` has been sorted into S
      and N, `pending` has not. */
  predicate AbsorbInvariant(u: Universe, d: set<Perm>, pending: set<Perm>, done: set<Perm>,
                            smooth: set<Perm>, nonSmooth: set<Perm>) {
    && done <= d && pending == d - done
    && smooth == u.smooth + SmoothOnes(done)
    && nonSmooth == u.nonSmooth + NonSmoothOnes(done)
  }

  /** Moving one permutation from `pending` to `done` keeps them
      complementary within `d`. */
  lemma PendingShrinks(d: set<Perm>, pending: set<Perm>, done: set<Perm>, q: Perm)
    requires done <= d && pending == d - done && q in pending
    ensures done + {q} <= d && pending - {q} == d - (done + {q})
    ensures |pending - {q}| < |pending|
  {
    assert pending == (pending - {q}) + {q};
  }

  /** Sorting in one more pending permutation keeps the loop state and
      leaves one fewer pending. */
  lemma AbsorbOneMore(u: Universe, d: set<Perm>, pending: set<Perm>, done: set<Perm>,
                      smooth: set<Perm>, nonSmooth: set<Perm>, q: Perm)
    requires AbsorbInvariant(u, d, pending, done, smooth, nonSmooth) && q in pending
    ensures IfSmooth(q) ==>
      AbsorbInvariant(u, d, pending - {q}, done + {q}, smooth + {q}, nonSmooth)
    ensures !IfSmooth(q) ==>
      AbsorbInvariant(u, d, pending - {q}, done + {q}, smooth, nonSmooth + {q})
    ensures |pending - {q}| < |pending|
  {
    PendingShrinks(d, pending, done, q);
    if IfSmooth(q) {
      assert SmoothOnes(done + {q}) == SmoothOnes(done) + {q};
      assert NonSmoothOnes(done + {q}) == NonSmoothOnes(done);
    } else {
      assert SmoothOnes(done + {q}) == SmoothOnes(done);
      assert NonSmoothOnes(done + {q}) == NonSmoothOnes(done) + {q};
    }
  }

  /** Sorting `d` in adds exactly `d` and keeps the classification. */
  lemma AbsorbFacts(u: Universe, d: set<Perm>)
    ensures Absorb(u, d).All() == u.All() + d
    ensures Classified(u) ==> Classified(Absorb(u, d))
  {
    assert SmoothOnes(d) + NonSmoothOnes(d) == d;
  }

  /** The body of the `for` loop over `d`: each permutation goes into S if
      `ifsmooth` accepts it and into N otherwise. The permutations are taken
      in an arbitrary order, as Python's set iteration does; the result is
      the closed form `Absorb`, whatever the order. */
  method AbsorbAll(u: Universe, d: set<Perm>) returns (next: Universe)
    ensures next == Absorb(u, d)
  {
    var pending := d;
    ghost var done: set<Perm> := {};
    var smooth, nonSmooth := u.smooth, u.nonSmooth;
    assert SmoothOnes({}) == {} && NonSmoothOnes({}) == {};
    while pending != {}
      invariant AbsorbInvariant(u, d, pending, done, smooth, nonSmooth)
      decreases |pending|
    {
      var q :| q in pending;
      AbsorbOneMore(u, d, pending, done, smooth, nonSmooth, q);
      if IfSmooth(q) {
        smooth := smooth + {q};
      } else {
        nonSmooth := nonSmooth + {q};
      }
      pending := pending - {q};
      done := done + {q};
    }
    assert done == d;
    next := Universe(smooth, nonSmooth);
  }

  /** One pass of the `while` loop's body: every permutation of
      `knuth_step(S, N)` is sorted into S or N by `ifsmooth`. */
  method Round(u: Universe) returns (next: Universe)
    ensures next.smooth == u.smooth + SmoothOnes(KnuthStep(u.smooth, u.nonSmooth))
    ensures next.nonSmooth == u.nonSmooth + NonSmoothOnes(KnuthStep(u.smooth, u.nonSmooth))
    ensures next.All() == u.All() + KnuthStep(u.smooth, u.nonSmooth)
    ensures Classified(u) ==> Classified(next)
  {
    var step := KnuthStep(u.smooth, u.nonSmooth);
    next := AbsorbAll(u, step);
    AbsorbFacts(u, step);
  }

  /** The permutations reachable from `seed` by at most `k` rounds of
      `knuth_step`. */
  function Closure(seed: Perm, k: nat): set<Perm> {
    if k == 0 then {seed}
    else
      var c := Closure(seed, k - 1);
      c + KnuthStep(c, {})
  }

  /** The first round adds the moves of the seed. */
  lemma ClosureOne(seed: Perm)
    ensures Closure(seed, 1) == {seed} + Moves(seed)
  {
    KnuthStepSingle(seed);
  }

  /** `q` is reachable from `seed` by a chain of at most `k` elementary
      Knuth transformations. */
  ghost predicate Reachable(seed: Perm, q: Perm, k: nat)
    decreases k
  {
    q == seed || (k > 0 && exists p :: Reachable(seed, p, k - 1) && KnuthMove(p, q))
  }

  /** Whatever the rounds collect is reachable. */
  lemma {:induction false} ClosureSound(seed: Perm, k: nat)
    ensures forall q :: q in Closure(seed, k) ==> Reachable(seed, q, k)
  {
    if k > 0 {
      var c := Closure(seed, k - 1);
      ClosureSound(seed, k - 1);
      forall q | q in Closure(seed, k)
        ensures Reachable(seed, q, k)
      {
        if q in c {
          ReachableGrows(seed, q, k - 1);
        } else {
          KnuthStepFrom(c, q);
          var p :| p in c && KnuthMove(p, q);
          assert Reachable(seed, p, k - 1);
        }
      }
    }
  }

  /** Whatever is reachable, the rounds collect. */
  lemma {:induction false} ClosureComplete(seed: Perm, k: nat)
    ensures forall q :: Reachable(seed, q, k) ==> q in Closure(seed, k)
  {
    if k > 0 {
      var c := Closure(seed, k - 1);
      ClosureComplete(seed, k - 1);
      forall q | Reachable(seed, q, k)
        ensures q in Closure(seed, k)
      {
        if q != seed {
          var p :| Reachable(seed, p, k - 1) && KnuthMove(p, q);
          KnuthStepFrom(c, q);
        }
      }
    }
  }

  /** The rounds collect exactly the permutations reachable in at most k
      transformations. */
  lemma ClosureIff(seed: Perm, q: Perm, k: nat)
    ensures q in Closure(seed, k) <==> Reachable(seed, q, k)
  {
    ClosureSound(seed, k);
    ClosureComplete(seed, k);
  }

  /** Reachable in k steps implies reachable in k + 1. */
  lemma {:induction false} ReachableGrows(seed: Perm, q: Perm, k: nat)
    requires Reachable(seed, q, k)
    ensures Reachable(seed, q, k + 1)
    decreases k
  {
    if q != seed {
      var p :| Reachable(seed, p, k - 1) && KnuthMove(p, q);
      ReachableGrows(seed, p, k - 1);
    }
  }

  /** Everything reachable rearranges the letters of the seed. */
  lemma {:induction false} ClosureKeepsLetters(seed: Perm, k: nat)
    ensures forall q :: q in Closure(seed, k) ==> multiset(q) == multiset(seed)
  {
    if k > 0 {
      ClosureKeepsLetters(seed, k - 1);
      KnuthStepKeepsLetters(Closure(seed, k - 1), multiset(seed));
    }
  }

  /** From a standard permutation only standard permutations of the same
      length are reached. */
  lemma ClosureKeepsStandard(seed: Perm, q: Perm, k: nat)
    requires IsStandardPermutation(seed)
    requires q in Closure(seed, k)
    ensures |q| == |seed| && IsStandardPermutation(q)
  {
    ClosureKeepsLetters(seed, k);
    assert |multiset(q)| == |multiset(seed)|;
  }

  /** A round adds to S and N together exactly the Knuth neighbours of
      their union, which takes the k-th closure to the next one; it never
      shrinks the sets, and when it leaves their size unchanged the sets
      are closed under `knuth_step`. */
  lemma RoundAdvances(u: Universe, next: Universe)
    requires Classified(u) && Classified(next)
    requires next.All() == u.All() + KnuthStep(u.smooth, u.nonSmooth)
    ensures next.All() == u.All() + KnuthStep(u.All(), {})
    ensures next.Size() == |next.All()| && u.Size() <= next.Size()
    ensures next.Size() == u.Size() ==> KnuthStep(next.All(), {}) <= next.All()
  {
    KnuthStepOfUnion(u.smooth, u.nonSmooth);
    ClassifiedSize(u);
    ClassifiedSize(next);
    SubsetSize(u.All(), next.All());
    if next.Size() == u.Size() {
      SubsetOfEqualSize(u.All(), next.All());
    }
  }

  /** How a run of the program ends. */
  datatype Outcome =
    | NotAPermutation
      // the `ValueError` of the input check
    | Converged(u: Universe, rounds: nat)
      // the `while` loop exits normally after `rounds` passes
    | CountExceeded(u: Universe, rounds: nat)
      // the assertion after a pass fails: more permutations than tableaux
    | Stalled(u: Universe, rounds: nat)
      // a pass adds nothing while still short of the target, so every
      // later pass adds nothing either and the `while` loop never exits

  /** The driver, from the input check to the end of the `while` loop. The
      target is the number of standard tableaux of the shape of P. */
  method Run(perm: Perm) returns (target: nat, out: Outcome)
    ensures out.NotAPermutation? <==> !IsStandardPermutation(perm)
    ensures !out.NotAPermutation? ==>
      && target == Hooks.HookFormula(Correspondence.GetShape(Correspondence.RobinsonSchensted(perm).p))
      && Classified(out.u)
      && out.u.All() == Closure(perm, out.rounds)
      && out.u.Size() == |out.u.All()|
    ensures out.Converged? ==> out.u.Size() >= target && (out.rounds > 0 ==> out.u.Size() == target)
    ensures out.CountExceeded? ==> out.rounds > 0 && out.u.Size() > target
    ensures out.Stalled? ==> out.u.Size() < target && KnuthStep(out.u.All(), {}) <= out.u.All()
  {
    if !IsStandardPermutation(perm) {
      return 0, NotAPermutation;
    }
    var tableaux := Correspondence.RobinsonSchensted(perm);
    var shape := Correspondence.GetShape(tableaux.p);
    target := Hooks.HookFormula(shape);
    var u := Seed(perm);
    var rounds: nat := 0;
    while u.Size() < target
      invariant Classified(u)
      invariant u.All() == Closure(perm, rounds)
      invariant u.Size() == |u.All()|
      invariant rounds > 0 ==> u.Size() <= target
      decreases target - u.Size()
    {
      var next := Round(u);
      RoundAdvances(u, next);
      rounds := rounds + 1;
      if next.Size() > target {
        return target, CountExceeded(next, rounds);
      }
      if next.Size() == u.Size() {
        return target, Stalled(next, rounds);
      }
      u := next;
    }
    return target, Converged(u, rounds);
  }
}
