/** The brute-force correspondence search (`brute_permutation`,
    calculate_rmsd.py:649-689): score every ordering Heap's generator yields
    for 0..n-1 and keep the first one whose score is strictly below the best
    so far.  The score (`kabsch_rmsd` of the reordered coordinates) is a
    parameter. */
module BruteForce {
  import opened Seqs
  import opened HeapPermutations
  import opened HeapProperties
  import opened Wrappers

  /** A running minimum that starts at infinity (None): x beats it when it
      is strictly smaller. */
  predicate Below(x: real, m: Option<real>) {
    m.None? || x < m.value
  }

  /** Position of the first smallest value, as a left-to-right scan that
      takes a new candidate only on a strictly smaller value finds it. */
  function FirstMinIndex(xs: seq<real>): (r: nat)
    requires |xs| >= 1
    ensures r < |xs|
    ensures forall x :: 0 <= x < |xs| ==> xs[r] <= xs[x]
    ensures forall x :: 0 <= x < r ==> xs[r] < xs[x]
  {
    if |xs| == 1 then 0
    else
      var m := FirstMinIndex(xs[..|xs| - 1]);
      if xs[|xs| - 1] < xs[m] then |xs| - 1 else m
  }

  /** The first minimum is the only position that is a minimum and strictly
      below everything before it. */
  lemma FirstMinUnique(xs: seq<real>, w: nat)
    requires w < |xs|
    requires forall x :: 0 <= x < |xs| ==> xs[w] <= xs[x]
    requires forall x :: 0 <= x < w ==> xs[w] < xs[x]
    ensures w == FirstMinIndex(xs)
  {
  }

  /** The scores of a list of orderings. */
  function Scores(score: seq<int> -> real, cands: seq<seq<int>>): (r: seq<real>)
    ensures |r| == |cands|
    ensures forall x :: 0 <= x < |cands| ==> r[x] == score(cands[x])
  {
    seq(|cands|, x requires 0 <= x < |cands| => score(cands[x]))
  }

  /** What the search returns: the first of Heap's orderings of 0..n-1 with
      the smallest score. */
  function BruteView(score: seq<int> -> real, n: nat): seq<int> {
    var cands := Gen(n, Range(n));
    cands[FirstMinIndex(Scores(score, cands))]
  }

  /** The search returns a permutation of 0..n-1 that scores no worse than
      any other permutation of 0..n-1. */
  lemma BruteViewOptimal(score: seq<int> -> real, n: nat)
    ensures IsIndexPermutation(BruteView(score, n), n)
    ensures forall p :: IsIndexPermutation(p, n) ==> score(BruteView(score, n)) <= score(p)
  {
    var a := Range(n);
    var cands := Gen(n, a);
    var xs := Scores(score, cands);
    var w := FirstMinIndex(xs);
    GenerateAll(a);
    assert cands[w] in cands;
    forall p | IsIndexPermutation(p, n) ensures score(cands[w]) <= score(p) {
      assert |p| == |multiset(p)| == |multiset(a)| == n;
      assert p in cands;
      var x :| 0 <= x < |cands| && cands[x] == p;
      assert xs[w] <= xs[x];
    }
  }

  /** Ties go to the earliest ordering generated: the returned ordering
      occurs no later than any ordering that scores as well. */
  lemma BruteViewFirst(score: seq<int> -> real, n: nat, x: nat)
    requires x < |Gen(n, Range(n))|
    requires score(Gen(n, Range(n))[x]) <= score(BruteView(score, n))
    ensures exists y :: 0 <= y <= x && Gen(n, Range(n))[y] == BruteView(score, n)
  {
    var cands := Gen(n, Range(n));
    var xs := Scores(score, cands);
    var w := FirstMinIndex(xs);
    assert xs[x] <= xs[w];
    assert w <= x;
  }

  /** `brute_permutation`: the running minimum starts at infinity and the
      candidate list at None, and each ordering is scored as it is yielded. */
  method BrutePermutation(score: seq<int> -> real, n: nat) returns (viewMin: Option<seq<int>>)
    ensures viewMin == Some(BruteView(score, n))
  {
    var rmsdMin: Option<real> := None;
    viewMin := None;
    var initialOrder := new int[n](i => i);
    assert initialOrder[..] == Range(n);
    var perms := GeneratePermutations(initialOrder, n);
    ghost var xs := Scores(score, perms);
    ghost var w := 0;
    for x := 0 to |perms|
      invariant x == 0 ==> rmsdMin.None? && viewMin.None?
      invariant x > 0 ==> w == FirstMinIndex(xs[..x])
      invariant x > 0 ==> rmsdMin == Some(xs[w]) && viewMin == Some(perms[w])
    {
      var rmsdTemp := score(perms[x]);
      if Below(rmsdTemp, rmsdMin) {
        rmsdMin := Some(rmsdTemp);
        viewMin := Some(perms[x]);
        w := x;
      }
      assert xs[..x + 1][..x] == xs[..x];
    }
    assert xs[..|perms|] == xs;
  }
}
