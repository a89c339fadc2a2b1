/** The three reorder methods as the label-grouped merge with their own
    per-group solvers, and the inertia variant that runs the Hungarian one
    twice and keeps the better result. */
module ReorderMethods {
  import opened Seqs
  import opened Wrappers
  import opened Argsorting
  import opened BruteForce
  import opened Reorder
  import opened Vectors
  import Inertia

  // ---------------------------------------------------------------------
  // reorder_hungarian

  /** `hungarian` (calculate_rmsd.py:525-536): the column indices that
      `linear_sum_assignment` pairs with the rows 0, 1, ... of the distance
      matrix between the two groups. */
  type Assignment = (seq<int>, seq<int>) -> seq<int>

  /** What `linear_sum_assignment` promises when there are no more rows
      than columns: one distinct column per row. */
  ghost predicate AssignmentOracle(assign: Assignment) {
    forall P: seq<int>, Q: seq<int> :: |P| <= |Q| ==> Injection(assign(P, Q), |P|, |Q|)
  }

  /** `hungarian` as a per-group solver: `linear_sum_assignment` always
      answers; a view that does not fit is the merge's error. */
  function HungarianSolver(assign: Assignment): (r: Solver)
    ensures forall P: seq<int>, Q: seq<int> :: r(P, Q).Some?
  {
    (P: seq<int>, Q: seq<int>) => Some(assign(P, Q))
  }

  /** `reorder_hungarian`: view_reorder starts at -1.  With an assignment
      that keeps its promise and equal label counts, the result is a
      permutation of q's positions under which q reads as p. */
  method ReorderHungarian<L(==)>(p: seq<L>, q: seq<L>, assign: Assignment)
    returns (res: Result<seq<int>, ReorderError>)
    ensures res.Success? <==> Solvable(p, q, HungarianSolver(assign))
    ensures res.Success? ==> res.value == Merged(p, q, HungarianSolver(assign), -1)
    ensures AssignmentOracle(assign) && multiset(p) == multiset(q) ==>
            res.Success? && IsIndexPermutation(res.value, |q|) && InRange(res.value, |q|) && Select(q, res.value) == p
  {
    res := ReorderGroups(p, q, -1, HungarianSolver(assign));
    if AssignmentOracle(assign) && multiset(p) == multiset(q) {
      HungarianValid(assign);
      MergedAligned(p, q, HungarianSolver(assign), -1);
    }
  }

  /** An assignment that keeps its promise makes a valid solver. */
  lemma HungarianValid(assign: Assignment)
    requires AssignmentOracle(assign)
    ensures ValidSolver(HungarianSolver(assign))
  {
    forall P: seq<int>, Q: seq<int> | |P| <= |Q|
      ensures HungarianSolver(assign)(P, Q) == Some(assign(P, Q))
    {
    }
  }

  // ---------------------------------------------------------------------
  // reorder_brute

  /** The score of a candidate view for a pair of groups: `kabsch_rmsd`
      of the group of p against the group of q read through the view. */
  type GroupScore = (seq<int>, seq<int>) -> (seq<int> -> real)

  /** `brute_permutation` on a pair of groups: scoring the orderings of
      0..|P|-1 indexes Q with every position below |P|, which raises when Q
      is shorter. */
  function BruteSolver(score: GroupScore): (r: Solver)
    ensures forall P: seq<int>, Q: seq<int> :: r(P, Q).Some? <==> |P| <= |Q|
  {
    (P: seq<int>, Q: seq<int>) =>
      if |P| > |Q| then None else Some(BruteView(score(P, Q), |P|))
  }

  /** The brute-force search is a valid solver. */
  lemma BruteValid(score: GroupScore)
    ensures ValidSolver(BruteSolver(score))
  {
    forall P: seq<int>, Q: seq<int> | |P| <= |Q|
      ensures BruteSolver(score)(P, Q) == Some(BruteView(score(P, Q), |P|))
      ensures Injection(BruteView(score(P, Q), |P|), |P|, |Q|)
    {
      var v := BruteView(score(P, Q), |P|);
      BruteViewOptimal(score(P, Q), |P|);
      IndexPermutationIff(v, |P|);
    }
  }

  /** `reorder_brute`: view_reorder starts at -1; with equal label counts
      the result is a permutation of q's positions under which q reads as
      p, and each group's view is the best-scoring ordering. */
  method ReorderBrute<L(==)>(p: seq<L>, q: seq<L>, score: GroupScore)
    returns (res: Result<seq<int>, ReorderError>)
    ensures res.Success? <==> Solvable(p, q, BruteSolver(score))
    ensures res.Success? ==> res.value == Merged(p, q, BruteSolver(score), -1)
    ensures multiset(p) == multiset(q) ==>
            res.Success? && IsIndexPermutation(res.value, |q|) && InRange(res.value, |q|) && Select(q, res.value) == p
  {
    res := ReorderGroups(p, q, -1, BruteSolver(score));
    if multiset(p) == multiset(q) {
      BruteValid(score);
      MergedAligned(p, q, BruteSolver(score), -1);
    }
  }

  // ---------------------------------------------------------------------
  // reorder_distance

  /** The norms of a group's coordinates, as keys. */
  function Keys(norm: int -> real, idx: seq<int>): (r: seq<real>)
    ensures |r| == |idx|
  {
    seq(|idx|, x requires 0 <= x < |idx| => norm(idx[x]))
  }

  /** The view of `reorder_distance` for one group: sort both groups by
      norm and project the order of A onto B through the inverse of A's
      argsort.  Indexing B's argsort with A's ranks raises exactly when A
      is the longer group. */
  function DistanceView(a: seq<real>, b: seq<real>): (r: Option<seq<int>>)
    ensures r.Some? <==> |a| <= |b|
  {
    var argA := Argsort(a);
    var argB := Argsort(b);
    var translator := Argsort(AsReals(argA));
    IndexPermutationIff(argB, |b|);
    IndexPermutationIff(translator, |a|);
    if |a| > |b| then None else Some(Select(argB, translator))
  }

  /** `translator` inverts A's argsort, so the r-th nearest atom of A is
      paired with the r-th nearest atom of B; the view picks |A| distinct
      atoms of B. */
  lemma DistancePairs(a: seq<real>, b: seq<real>)
    requires |a| <= |b|
    ensures Injection(DistanceView(a, b).value, |a|, |b|)
    ensures forall r :: 0 <= r < |a| ==>
              Argsort(a)[r] < |a| && DistanceView(a, b).value[Argsort(a)[r]] == Argsort(b)[r]
  {
    var argA, argB := Argsort(a), Argsort(b);
    var t := Argsort(AsReals(argA));
    IndexPermutationIff(argA, |a|);
    IndexPermutationIff(argB, |b|);
    IndexPermutationIff(t, |a|);
    ArgsortOfPermutation(argA, |a|);
    var v := Select(argB, t);
    assert v == DistanceView(a, b).value;
    SelectDistinct(argB, t, |b|);
    forall r | 0 <= r < |a| ensures v[argA[r]] == argB[r] {
      assert t[argA[r]] == r;
    }
  }

  function DistanceSolver(pNorm: int -> real, qNorm: int -> real): Solver {
    (P: seq<int>, Q: seq<int>) => DistanceView(Keys(pNorm, P), Keys(qNorm, Q))
  }

  /** Sorting by norm is a valid solver. */
  lemma DistanceValid(pNorm: int -> real, qNorm: int -> real)
    ensures ValidSolver(DistanceSolver(pNorm, qNorm))
  {
    forall P: seq<int>, Q: seq<int> | |P| <= |Q|
      ensures DistanceSolver(pNorm, qNorm)(P, Q).Some?
      ensures Injection(DistanceSolver(pNorm, qNorm)(P, Q).value, |P|, |Q|)
    {
      var a, b := Keys(pNorm, P), Keys(qNorm, Q);
      assert DistanceSolver(pNorm, qNorm)(P, Q) == DistanceView(a, b);
      DistancePairs(a, b);
    }
  }

  /** `reorder_distance`: view_reorder starts at 0; with equal label counts
      the result is a permutation of q's positions under which q reads as
      p. */
  method ReorderDistance<L(==)>(p: seq<L>, q: seq<L>, pNorm: int -> real, qNorm: int -> real)
    returns (res: Result<seq<int>, ReorderError>)
    ensures res.Success? <==> Solvable(p, q, DistanceSolver(pNorm, qNorm))
    ensures res.Success? ==> res.value == Merged(p, q, DistanceSolver(pNorm, qNorm), 0)
    ensures multiset(p) == multiset(q) ==>
            res.Success? && IsIndexPermutation(res.value, |q|) && InRange(res.value, |q|) && Select(q, res.value) == p
  {
    res := ReorderGroups(p, q, 0, DistanceSolver(pNorm, qNorm));
    if multiset(p) == multiset(q) {
      DistanceValid(pNorm, qNorm);
      MergedAligned(p, q, DistanceSolver(pNorm, qNorm), 0);
    }
  }

  // ---------------------------------------------------------------------
  // reorder_inertia_hungarian

  /** What makes `reorder_inertia_hungarian` raise. */
  datatype InertiaReorderError =
    | AxisFailed(axisError: Inertia.GeometryError)  // `get_principal_axis` raised in its tensor of inertia
    | GroupFailed(groupError: ReorderError)         // `reorder_hungarian` raised
    | RmsdShapeMismatch                             // `kabsch_rmsd` on p and q of different lengths

  /** `reorder_inertia_hungarian` (calculate_rmsd.py:582-623): the principal
      axes of P and Q (which raise where their tensors of inertia do), then
      Q rotated onto P's axis both ways gives two Hungarian assignments; the
      review whose RMSD is strictly smaller wins, the second on a tie.  The
      eigenvectors and rotations only enter through the two assignments
      and the two scores; `kabsch_rmsd` raises when P and the reviewed Q,
      as long as q, differ in length. */
  method ReorderInertiaHungarian(p: seq<string>, q: seq<string>, pCoord: seq<Vec3>, qCoord: seq<Vec3>,
                                 assign1: Assignment, assign2: Assignment,
                                 rmsd1: seq<int> -> real, rmsd2: seq<int> -> real)
    returns (res: Result<seq<int>, InertiaReorderError>)
    ensures Inertia.CenterOfMass(p, pCoord).Failure? ==>
            res == Failure(AxisFailed(Inertia.CenterOfMass(p, pCoord).error))
    ensures Inertia.CenterOfMass(p, pCoord).Success? && Inertia.CenterOfMass(q, qCoord).Failure? ==>
            res == Failure(AxisFailed(Inertia.CenterOfMass(q, qCoord).error))
    ensures res.Success? <==>
            Inertia.CenterOfMass(p, pCoord).Success? && Inertia.CenterOfMass(q, qCoord).Success? &&
            Solvable(p, q, HungarianSolver(assign1)) && Solvable(p, q, HungarianSolver(assign2)) && |p| == |q|
    ensures res.Success? ==>
            var m1, m2 := Merged(p, q, HungarianSolver(assign1), -1), Merged(p, q, HungarianSolver(assign2), -1);
            res.value == if rmsd1(m1) < rmsd2(m2) then m1 else m2
    ensures Inertia.CenterOfMass(p, pCoord).Success? && Inertia.CenterOfMass(q, qCoord).Success? &&
            AssignmentOracle(assign1) && AssignmentOracle(assign2) && multiset(p) == multiset(q) ==>
            res.Success? && IsIndexPermutation(res.value, |q|) && InRange(res.value, |q|) && Select(q, res.value) == p
  {
    var pTensor := Inertia.GetInertiaTensor(p, pCoord);
    if pTensor.Failure? {
      return Failure(AxisFailed(pTensor.error));
    }
    var qTensor := Inertia.GetInertiaTensor(q, qCoord);
    if qTensor.Failure? {
      return Failure(AxisFailed(qTensor.error));
    }
    var review1 := ReorderHungarian(p, q, assign1);
    if review1.Failure? {
      return Failure(GroupFailed(review1.error));
    }
    var review2 := ReorderHungarian(p, q, assign2);
    if review2.Failure? {
      return Failure(GroupFailed(review2.error));
    }
    if |p| != |q| {
      return Failure(RmsdShapeMismatch);
    }
    if rmsd1(review1.value) < rmsd2(review2.value) {
      res := Success(review1.value);
    } else {
      res := Success(review2.value);
    }
    if multiset(p) == multiset(q) {
      assert |p| == |multiset(p)| == |multiset(q)| == |q|;
    }
  }
}
