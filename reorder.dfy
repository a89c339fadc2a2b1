/** The label-grouped correspondence search shared by `reorder_hungarian`
    (calculate_rmsd.py:541-579), `reorder_brute` (calculate_rmsd.py:692-730)
    and `reorder_distance` (calculate_rmsd.py:478-522).

    For every label of p the positions of that label in p (P) and in q (Q)
    are handed to a per-group solver, which answers with a view: for the
    x-th atom of P, the index into Q of its partner.  The partners are
    written into `view_reorder`, an array as long as q whose other entries
    keep their initial value.  A solver is a function of the two groups (it
    reads the coordinates it needs itself); None stands for a solver that
    raises. */
module Reorder {
  import opened Seqs
  import opened Wrappers
  import opened Groups

  type Solver = (seq<int>, seq<int>) -> Option<seq<int>>

  datatype ReorderError = SolverFailed | ShapeMismatch | IndexOutOfRange

  /** Every entry is a valid NumPy index into a sequence of length n
      (negative entries count from the end). */
  predicate Indexes(v: seq<int>, n: nat) {
    forall x :: 0 <= x < |v| ==> -(n as int) <= v[x] < n
  }

  /** The position a valid NumPy index refers to. */
  function PyIndex(v: int, n: nat): (r: int)
    requires -(n as int) <= v < n
    ensures 0 <= r < n
    ensures v >= 0 ==> r == v
  {
    if v < 0 then v + n else v
  }

  /** The entry of a view assigned to the x-th atom of a group: a view of
      length one is broadcast to the whole group. */
  function Spread(v: seq<int>, x: nat): int
    requires |v| == 1 || x < |v|
  {
    if |v| == 1 then v[0] else v[x]
  }

  /** The label's group goes through: the solver answers, its view fits the
      group's shape and indexes Q, and every position of P indexes q. */
  predicate GroupOk<L(==)>(p: seq<L>, q: seq<L>, l: L, solve: Solver) {
    var P := Where(p, l);
    var Q := Where(q, l);
    var o := solve(P, Q);
    o.Some? && (|o.value| == |P| || |o.value| == 1) &&
    Indexes(o.value, |Q|) && InRange(P, |q|)
  }

  /** Every label of p goes through. */
  predicate Solvable<L(==)>(p: seq<L>, q: seq<L>, solve: Solver) {
    forall l :: l in p ==> GroupOk(p, q, l, solve)
  }

  /** The q position given to position i of p: the partner the view names
      for i's rank within its group. */
  function Pick<L(==)>(p: seq<L>, q: seq<L>, solve: Solver, i: nat): (r: int)
    requires i < |p| && GroupOk(p, q, p[i], solve)
    ensures 0 <= r < |q| && q[r] == p[i]
  {
    var Q := Where(q, p[i]);
    var v := solve(Where(p, p[i]), Q).value;
    WhereAtRank(p, i);
    Q[PyIndex(Spread(v, Rank(p, i)), |Q|)]
  }

  /** Entry i of `view_reorder` once the labels in done have been handled. */
  function Partial<L(==)>(p: seq<L>, q: seq<L>, solve: Solver, init: int, done: set<L>, i: nat): int
    requires forall l :: l in done ==> GroupOk(p, q, l, solve)
  {
    if i < |p| && p[i] in done then Pick(p, q, solve, i) else init
  }

  /** `view_reorder` after every label has been handled. */
  function Merged<L(==)>(p: seq<L>, q: seq<L>, solve: Solver, init: int): (r: seq<int>)
    requires Solvable(p, q, solve)
    ensures |r| == |q|
    ensures forall i :: 0 <= i < |q| ==> r[i] == if i < |p| then Pick(p, q, solve, i) else init
  {
    seq(|q|, i requires 0 <= i < |q| => if i < |p| then Pick(p, q, solve, i) else init)
  }

  /** The loop over the labels of p (in any order: the groups are disjoint,
      so the order does not change the result) and the fancy assignment
      `view_reorder[p_atom_idx] = q_atom_idx[view]`. */
  method ReorderGroups<L(==)>(p: seq<L>, q: seq<L>, init: int, solve: Solver)
    returns (res: Result<seq<int>, ReorderError>)
    ensures res.Success? <==> Solvable(p, q, solve)
    ensures res.Success? ==> res.value == Merged(p, q, solve, init)
  {
    var viewReorder := new int[|q|](_ => init);
    var todo := Elements(p);
    ghost var done: set<L> := {};
    while todo != {}
      invariant todo !! done && todo + done == Elements(p)
      invariant forall l :: l in done ==> GroupOk(p, q, l, solve)
      invariant forall i :: 0 <= i < |q| ==> viewReorder[i] == Partial(p, q, solve, init, done, i)
      decreases |todo|
    {
      var atom :| atom in todo;
      assert atom in p;
      var pIdx := Where(p, atom);
      var qIdx := Where(q, atom);
      var view := solve(pIdx, qIdx);
      if view.None? {
        return Failure(SolverFailed);
      }
      var v := view.value;
      if !Indexes(v, |qIdx|) {
        return Failure(IndexOutOfRange);
      }
      if |v| != |pIdx| && |v| != 1 {
        return Failure(ShapeMismatch);
      }
      if !InRange(pIdx, |q|) {
        return Failure(IndexOutOfRange);
      }
      assert GroupOk(p, q, atom, solve);
      AssignGroup(viewReorder, p, q, solve, init, done, atom, pIdx, qIdx, v);
      done := done + {atom};
      todo := todo - {atom};
    }
    AllDone(p, q, solve, init, done);
    assert viewReorder[..] == Merged(p, q, solve, init);
    return Success(viewReorder[..]);
  }

  /** Once every label is handled the partial view is the merged one. */
  lemma AllDone<L>(p: seq<L>, q: seq<L>, solve: Solver, init: int, done: set<L>)
    requires done == Elements(p)
    requires forall l :: l in done ==> GroupOk(p, q, l, solve)
    ensures Solvable(p, q, solve)
    ensures forall i :: 0 <= i < |q| ==> Partial(p, q, solve, init, done, i) == Merged(p, q, solve, init)[i]
  {
    forall l | l in p ensures GroupOk(p, q, l, solve) {
      var i :| 0 <= i < |p| && p[i] == l;
      assert l in Elements(p);
    }
    forall i | 0 <= i < |p| ensures p[i] in done {
      assert p[i] in Elements(p);
    }
  }

  /** `view_reorder[p_atom_idx] = q_atom_idx[view]` for one label: the
      positions of that label in p receive their picks, nothing else
      changes. */
  method AssignGroup<L(==)>(viewReorder: array<int>, p: seq<L>, q: seq<L>, solve: Solver, init: int,
                            ghost done: set<L>, atom: L, pIdx: seq<int>, qIdx: seq<int>, v: seq<int>)
    requires viewReorder.Length == |q|
    requires forall l :: l in done ==> GroupOk(p, q, l, solve)
    requires GroupOk(p, q, atom, solve)
    requires pIdx == Where(p, atom) && qIdx == Where(q, atom) && solve(pIdx, qIdx) == Some(v)
    requires forall i :: 0 <= i < |q| ==> viewReorder[i] == Partial(p, q, solve, init, done, i)
    modifies viewReorder
    ensures forall i :: 0 <= i < |q| ==> viewReorder[i] == Partial(p, q, solve, init, done + {atom}, i)
  {
    for x := 0 to |pIdx|
      invariant forall i :: 0 <= i < |q| ==>
        viewReorder[i] == (if i < |p| && p[i] == atom && Rank(p, i) < x then Pick(p, q, solve, i)
                           else Partial(p, q, solve, init, done, i))
    {
      RankAt(p, atom, x);
      forall i | 0 <= i < |p| && p[i] == atom
        ensures Rank(p, i) == x <==> i == pIdx[x]
      {
        RankIff(p, i, x);
      }
      viewReorder[pIdx[x]] := qIdx[PyIndex(Spread(v, x), |qIdx|)];
    }
    forall i | 0 <= i < |p| && p[i] == atom
      ensures Rank(p, i) < |pIdx|
    {
      WhereAtRank(p, i);
    }
  }

  // ---------------------------------------------------------------------
  // The merged view is a correspondence.

  /** A per-group solver that does its job: whenever Q has room for P it
      answers with |P| distinct indices into Q. */
  ghost predicate ValidSolver(solve: Solver) {
    forall P: seq<int>, Q: seq<int> :: |P| <= |Q| ==> solve(P, Q).Some? && Injection(solve(P, Q).value, |P|, |Q|)
  }

  /** n distinct indices below m. */
  predicate Injection(v: seq<int>, n: nat, m: nat) {
    |v| == n && InRange(v, m) && Distinct(v)
  }

  /** With a valid solver, every label goes through as soon as q has at
      least as many atoms of each label as p. */
  lemma FitsSolvable<L>(p: seq<L>, q: seq<L>, solve: Solver)
    requires ValidSolver(solve) && multiset(p) <= multiset(q)
    ensures Solvable(p, q, solve)
    ensures |p| <= |q|
  {
    SubMultisetCard(multiset(p), multiset(q));
    forall l | l in p ensures GroupOk(p, q, l, solve) {
      var P, Q := Where(p, l), Where(q, l);
      assert |P| <= |Q|;
      var v := solve(P, Q).value;
      assert Indexes(v, |Q|);
    }
  }

  /** Two different positions of p with the same label get different
      partners. */
  lemma PickInjective<L>(p: seq<L>, q: seq<L>, solve: Solver, i: nat, j: nat)
    requires ValidSolver(solve) && multiset(p) <= multiset(q)
    requires i < |p| && j < |p| && i != j && p[i] == p[j]
    requires GroupOk(p, q, p[i], solve)
    ensures Pick(p, q, solve, i) != Pick(p, q, solve, j)
  {
    var l := p[i];
    var P, Q := Where(p, l), Where(q, l);
    assert |P| <= |Q|;
    var v := solve(P, Q).value;
    WhereAtRank(p, i);
    WhereAtRank(p, j);
    var x, y := Rank(p, i), Rank(p, j);
    assert x != y;
    assert Spread(v, x) == v[x] && Spread(v, y) == v[y];
    assert v[x] != v[y];
    if v[x] < v[y] {
      assert Q[v[x]] < Q[v[y]];
    } else {
      assert Q[v[y]] < Q[v[x]];
    }
  }

  /** The theorem behind the alignment check after reordering: with valid
      per-group solvers and q holding at least p's atoms of every label,
      the merge succeeds, the first |p| entries are distinct positions of q
      carrying p's labels, and the rest keep the initial value.  With equal
      label counts the view is a permutation of q's positions (no initial
      value is left) and q read through it is p. */
  lemma MergedAligned<L>(p: seq<L>, q: seq<L>, solve: Solver, init: int)
    requires ValidSolver(solve) && multiset(p) <= multiset(q)
    ensures Solvable(p, q, solve)
    ensures var m := Merged(p, q, solve, init);
            |p| <= |q| &&
            (forall i :: 0 <= i < |p| ==> 0 <= m[i] < |q| && q[m[i]] == p[i]) &&
            Distinct(m[..|p|]) &&
            (forall i :: |p| <= i < |q| ==> m[i] == init)
    ensures multiset(p) == multiset(q) ==>
            IsIndexPermutation(Merged(p, q, solve, init), |q|) && InRange(Merged(p, q, solve, init), |q|) &&
            Select(q, Merged(p, q, solve, init)) == p
  {
    FitsSolvable(p, q, solve);
    var m := Merged(p, q, solve, init);
    forall i, j | 0 <= i < j < |p| ensures m[..|p|][i] != m[..|p|][j] {
      if p[i] == p[j] {
        PickInjective(p, q, solve, i, j);
      }
    }
    if multiset(p) == multiset(q) {
      assert |p| == |multiset(p)| == |multiset(q)| == |q|;
      assert m[..|p|] == m;
      IndexPermutationIff(m, |q|);
      assert Select(q, m) == p;
    }
  }
}
