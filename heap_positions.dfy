/** Where Heap's generator moves things.

    A run of the generator over the first k positions only rearranges them,
    and the rearrangement it makes does not depend on the values: position q
    of the arrangement left behind holds the value that was at EndPos(k, q),
    and after j blocks of the level-k loop position p holds the value that
    was at StatePos(k, j, p).  These are the closed forms; the lemmas below
    are the integer facts that make the run's induction go through. */
module HeapPositions {

  /** The position map of exchanging positions i and j. */
  function SwapPos(i: nat, j: nat, p: nat): (r: nat)
    ensures r == i <==> p == j
    ensures r == j <==> p == i
    ensures p != i && p != j ==> r == p
  {
    if p == i then j else if p == j then i else p
  }

  /** The arrangement left by a run over the first k positions, for even
      k >= 4: a[k-3], a[k-2], a[1], ..., a[k-4], a[k-1], a[0]. */
  function EvenEndPos(k: nat, q: nat): nat
    requires 4 <= k && q < k
  {
    if q == 0 then k - 3
    else if q == 1 then k - 2
    else if q <= k - 3 then q - 1
    else if q == k - 2 then k - 1
    else 0
  }

  /** The source position of the value at q after a run over the first k
      positions: for odd k (and k = 2) the first and the k-th positions are
      exchanged, for even k >= 4 it is EvenEndPos. */
  function EndPos(k: nat, q: nat): (r: nat)
    ensures q < k ==> r < k
    ensures q >= k ==> r == q
  {
    if q >= k then q
    else if k % 2 == 1 || k <= 2 then SwapPos(0, k - 1, q)
    else EvenEndPos(k, q)
  }

  /** For odd k, the relabelling of 0..k-1 under which the level-k loop's
      blocks rotate positions by one: an involution. */
  function Cyc(k: nat, t: nat): (r: nat)
    requires t < k
    ensures r < k
  {
    if k <= 3 then k - 1 - t
    else if t == 0 then k - 1
    else if t <= k - 4 then k - 3 - t
    else if t == k - 1 then 0
    else t
  }

  /** t + j taken modulo k, for t, j < k. */
  function Shift(t: nat, j: nat, k: nat): (r: nat)
    requires t < k && j < k
    ensures r < k
  {
    if t + j < k then t + j else t + j - k
  }

  /** The source position of the value at p after j blocks of the level-k
      loop, for even k. */
  function EvenStatePos(k: nat, j: nat, p: nat): (r: nat)
    requires 2 <= k && k % 2 == 0 && j < k && p < k
    ensures r < k
  {
    if j == 0 then p
    else if j == 1 then
      (if p == 0 then k - 1 else if p == k - 2 then 0 else if p == k - 1 then k - 2 else p)
    else if j <= k - 2 then
      (if p == 0 then (if j % 2 == 1 then k - 1 else 0)
       else if p == k - 2 then (if j % 2 == 1 then 0 else k - 1)
       else if p == 1 then k - 2
       else if p < j then p - 1
       else if p <= k - 3 then p
       else j - 1)
    else
      (if p == 0 then k - 1 else if p == 1 then k - 2 else if p <= k - 2 then p - 1 else 0)
  }

  /** The source position of the value at p after j blocks of the level-k
      loop (j exchanges with position k-1). */
  function StatePos(k: nat, j: nat, p: nat): (r: nat)
    requires j < k
    ensures p < k ==> r < k
    ensures p >= k ==> r == p
  {
    if p >= k then p
    else if k % 2 == 1 then Cyc(k, Shift(Cyc(k, p), j, k))
    else EvenStatePos(k, j, p)
  }

  /** The block at which the value first at position m reaches position
      k-1 in the level-k loop. */
  function LastPosInv(k: nat, m: nat): (r: nat)
    requires m < k
    ensures r < k
  {
    if k <= 3 then k - 1 - m
    else if k % 2 == 1 then Cyc(k, m)
    else if m == k - 1 then 0
    else if m == k - 2 then 1
    else if m >= 1 then m + 1
    else k - 1
  }

  // ---------------------------------------------------------------------

  /** One block of the level-k loop: the exchange with position k-1 followed
      by a run over the first k-1 positions advances StatePos by one block. */
  lemma PosStep(k: nat, j: nat, p: nat)
    requires 2 <= k && j < k - 1
    ensures var s := if (k - 1) % 2 == 0 then 0 else j;
            StatePos(k, j + 1, p) == StatePos(k, j, EndPos(k - 1, SwapPos(s, k - 1, p)))
  {
    if p >= k {
    } else if k % 2 == 1 {
      PosStepOdd(k, j, p);
    } else {
      PosStepEven(k, j, p);
    }
  }

  /** For odd k every block exchanges position 0 with k-1, then runs the
      even level below; under Cyc that is a rotation by one. */
  lemma PosStepOdd(k: nat, j: nat, p: nat)
    requires 3 <= k && k % 2 == 1 && j < k - 1 && p < k
    ensures StatePos(k, j + 1, p) == StatePos(k, j, EndPos(k - 1, SwapPos(0, k - 1, p)))
  {
    var r := EndPos(k - 1, SwapPos(0, k - 1, p));
    OddBlockRotates(k, p);
    assert Shift(Shift(Cyc(k, p), 1, k), j, k) == Shift(Cyc(k, p), j + 1, k);
  }

  lemma OddBlockRotates(k: nat, p: nat)
    requires 3 <= k && k % 2 == 1 && p < k
    ensures Cyc(k, EndPos(k - 1, SwapPos(0, k - 1, p))) == Shift(Cyc(k, p), 1, k)
  {
    assert (k - 1) % 2 == 0;
    var q := SwapPos(0, k - 1, p);
    if k == 3 || q == k - 1 {
    } else {
      assert EndPos(k - 1, q) == EvenEndPos(k - 1, q);
    }
  }

  /** For even k the j-th block exchanges position j with k-1, then runs
      the odd level below, which exchanges positions 0 and k-2. */
  lemma PosStepEven(k: nat, j: nat, p: nat)
    requires 2 <= k && k % 2 == 0 && j < k - 1 && p < k
    ensures StatePos(k, j + 1, p) == StatePos(k, j, EndPos(k - 1, SwapPos(j, k - 1, p)))
  {
    var q := SwapPos(j, k - 1, p);
    assert EndPos(k - 1, q) == SwapPos(0, k - 2, q);
  }

  /** The arrangement after a run over the first k positions is the one
      after its last block. */
  lemma PosEnd(k: nat, q: nat)
    requires 1 <= k
    ensures EndPos(k, q) == StatePos(k, k - 1, EndPos(k - 1, q))
  {
  }

  /** Each block puts a different value at position k-1: LastPosInv undoes
      the map from blocks to the source position of that value, both ways. */
  lemma LastPosInverse(k: nat, j: nat, m: nat)
    requires j < k && m < k
    ensures LastPosInv(k, StatePos(k, j, k - 1)) == j
    ensures StatePos(k, LastPosInv(k, m), k - 1) == m
  {
  }
}
