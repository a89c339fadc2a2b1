/** What Heap's generator promises: the first ordering is the input, every
    ordering yielded is a rearrangement of the input, every rearrangement is
    yielded, there are n! of them, and when the elements are distinct no
    ordering is yielded twice. */
module HeapProperties {
  import opened Seqs
  import opened HeapPermutations
  import opened HeapPositions

  /** b rearranges the first k positions of a and leaves the others alone. */
  ghost predicate Arrangement<T>(b: seq<T>, a: seq<T>, k: nat)
    requires k <= |a|
  {
    |b| == |a| && b[k..] == a[k..] && multiset(b[..k]) == multiset(a[..k])
  }

  lemma ArrangementRefl<T>(a: seq<T>, k: nat)
    requires k <= |a|
    ensures Arrangement(a, a, k)
  {
  }

  lemma ArrangementTrans<T>(c: seq<T>, b: seq<T>, a: seq<T>, k: nat)
    requires k <= |a|
    requires Arrangement(b, a, k) && Arrangement(c, b, k)
    ensures Arrangement(c, a, k)
  {
  }

  /** An arrangement of the first k-1 positions is one of the first k. */
  lemma ArrangementWiden<T>(b: seq<T>, a: seq<T>, k: nat)
    requires 1 <= k <= |a|
    requires Arrangement(b, a, k - 1)
    ensures Arrangement(b, a, k)
  {
    assert b[..k] == b[..k - 1] + [b[k - 1]];
    assert a[..k] == a[..k - 1] + [a[k - 1]];
    assert b[k - 1] == b[k - 1..][0] == a[k - 1..][0] == a[k - 1];
    assert b[k..] == b[k - 1..][1..];
    assert a[k..] == a[k - 1..][1..];
  }

  lemma ArrangementSwap<T>(a: seq<T>, i: nat, k: nat)
    requires i < k <= |a|
    ensures Arrangement(Swap(a, i, k - 1), a, k)
  {
    SwapPrefix(a, i, k - 1, k);
  }

  /** A full-length arrangement is a rearrangement of the whole sequence. */
  lemma ArrangementFull<T>(b: seq<T>, a: seq<T>)
    ensures Arrangement(b, a, |a|) <==> |b| == |a| && multiset(b) == multiset(a)
  {
    assert a[..|a|] == a;
    if |b| == |a| {
      assert b[..|a|] == b;
    }
  }

  // =====================================================================
  // Every ordering yielded is an arrangement of the input.

  lemma {:induction false} GenShape<T>(k: nat, a: seq<T>)
    requires k <= |a|
    ensures forall o :: o in Gen(k, a) ==> Arrangement(o, a, k)
    ensures Arrangement(End(k, a), a, k)
    decreases k, 1, 0
  {
    if k == 0 {
      ArrangementRefl(a, 0);
    } else {
      var b := End(k - 1, a);
      GenShape(k - 1, a);
      TailShape(k, 0, b);
      forall o | o in Gen(k - 1, a) ensures Arrangement(o, a, k) {
        ArrangementWiden(o, a, k);
      }
      ArrangementWiden(b, a, k);
      forall o | o in Tail(k, 0, b) ensures Arrangement(o, a, k) {
        ArrangementTrans(o, b, a, k);
      }
      ArrangementTrans(End(k, a), b, a, k);
    }
  }

  lemma {:induction false} TailShape<T>(k: nat, j: nat, b: seq<T>)
    requires 1 <= k <= |b| && j < k
    ensures forall o :: o in Tail(k, j, b) ==> Arrangement(o, b, k)
    ensures Arrangement(TailEnd(k, j, b), b, k)
    decreases k, 0, k - j
  {
    if j < k - 1 {
      var b' := Swap(b, SwapIndex(k, j), k - 1);
      var e := End(k - 1, b');
      ArrangementSwap(b, SwapIndex(k, j), k);
      GenShape(k - 1, b');
      TailShape(k, j + 1, e);
      forall o | o in Gen(k - 1, b') ensures Arrangement(o, b, k) {
        ArrangementWiden(o, b', k);
        ArrangementTrans(o, b', b, k);
      }
      ArrangementWiden(e, b', k);
      ArrangementTrans(e, b', b, k);
      forall o | o in Tail(k, j + 1, e) ensures Arrangement(o, b, k) {
        ArrangementTrans(o, e, b, k);
      }
      ArrangementTrans(TailEnd(k, j + 1, e), e, b, k);
    } else {
      ArrangementRefl(b, k);
    }
  }

  // =====================================================================
  // There are k! orderings.

  lemma {:induction false} GenCount<T>(k: nat, a: seq<T>)
    requires k <= |a|
    ensures |Gen(k, a)| == Fact(k)
    decreases k, 1, 0
  {
    if k > 0 {
      GenCount(k - 1, a);
      TailCount(k, 0, End(k - 1, a));
      assert Fact(k) == Fact(k - 1) + (k - 1) * Fact(k - 1);
    }
  }

  lemma {:induction false} TailCount<T>(k: nat, j: nat, b: seq<T>)
    requires 1 <= k <= |b| && j < k
    ensures |Tail(k, j, b)| == (k - 1 - j) * Fact(k - 1)
    decreases k, 0, k - j
  {
    if j < k - 1 {
      var b' := Swap(b, SwapIndex(k, j), k - 1);
      GenCount(k - 1, b');
      TailCount(k, j + 1, End(k - 1, b'));
      assert (k - 1 - j) * Fact(k - 1) == Fact(k - 1) + (k - 1 - (j + 1)) * Fact(k - 1);
    }
  }

  // =====================================================================
  // The level-k loop as k blocks.

  /** The arrangement on which the j-th block of the level-k loop runs. */
  ghost function Block<T>(k: nat, j: nat, a: seq<T>): (r: seq<T>)
    requires 1 <= k <= |a| && j < k
    ensures |r| == |a|
  {
    if j == 0 then a
    else Swap(End(k - 1, Block(k, j - 1, a)), SwapIndex(k, j - 1), k - 1)
  }

  /** The level-k loop after its j-th block: the blocks still to come. */
  lemma BlockTail<T>(k: nat, j: nat, a: seq<T>)
    requires 1 <= k <= |a| && j < k - 1
    ensures var b := Block(k, j + 1, a);
            Tail(k, j, End(k - 1, Block(k, j, a))) == Gen(k - 1, b) + Tail(k, j + 1, End(k - 1, b))
  {
  }

  /** The level-k loop leaves behind what its last block leaves behind. */
  lemma {:induction false} BlockTailEnd<T>(k: nat, j: nat, a: seq<T>)
    requires 1 <= k <= |a| && j < k
    ensures TailEnd(k, j, End(k - 1, Block(k, j, a))) == End(k - 1, Block(k, k - 1, a))
    decreases k - j
  {
    if j < k - 1 {
      BlockTailEnd(k, j + 1, a);
    }
  }

  lemma {:induction false} BlockShape<T>(k: nat, j: nat, a: seq<T>)
    requires 1 <= k <= |a| && j < k
    ensures Arrangement(Block(k, j, a), a, k)
  {
    if j == 0 {
      ArrangementRefl(a, k);
    } else {
      var b := Block(k, j - 1, a);
      var e := End(k - 1, b);
      BlockShape(k, j - 1, a);
      GenShape(k - 1, b);
      ArrangementWiden(e, b, k);
      ArrangementSwap(e, SwapIndex(k, j - 1), k);
      ArrangementTrans(Block(k, j, a), e, b, k);
      ArrangementTrans(Block(k, j, a), b, a, k);
    }
  }

  // =====================================================================
  // Closed forms: which input position each output position comes from.

  lemma {:induction false} EndIs<T>(k: nat, a: seq<T>)
    requires k <= |a|
    ensures forall q :: 0 <= q < |a| ==> End(k, a)[q] == a[EndPos(k, q)]
    decreases k, 1, 0
  {
    if k > 0 {
      var b := Block(k, k - 1, a);
      BlockTailEnd(k, 0, a);
      assert End(k, a) == End(k - 1, b);
      EndIs(k - 1, b);
      BlockIs(k, k - 1, a);
      forall q | 0 <= q < |a| ensures End(k, a)[q] == a[EndPos(k, q)] {
        PosEnd(k, q);
      }
    }
  }

  lemma {:induction false} BlockIs<T>(k: nat, j: nat, a: seq<T>)
    requires 1 <= k <= |a| && j < k
    ensures forall p :: 0 <= p < |a| ==> Block(k, j, a)[p] == a[StatePos(k, j, p)]
    decreases k, 0, j
  {
    if j > 0 {
      var b := Block(k, j - 1, a);
      BlockIs(k, j - 1, a);
      EndIs(k - 1, b);
      forall p | 0 <= p < |a| ensures Block(k, j, a)[p] == a[StatePos(k, j, p)] {
        BlockIsAt(k, j, a, b, End(k - 1, b), p);
      }
    }
  }

  /** One position of one step of BlockIs. */
  lemma BlockIsAt<T>(k: nat, j: nat, a: seq<T>, b: seq<T>, e: seq<T>, p: nat)
    requires 1 <= k <= |a| && 0 < j < k && p < |a|
    requires b == Block(k, j - 1, a) && e == End(k - 1, b)
    requires forall i :: 0 <= i < |a| ==> b[i] == a[StatePos(k, j - 1, i)]
    requires forall q :: 0 <= q < |a| ==> e[q] == b[EndPos(k - 1, q)]
    ensures Block(k, j, a)[p] == a[StatePos(k, j, p)]
  {
    var s := SwapIndex(k, j - 1);
    var q := SwapPos(s, k - 1, p);
    var r := EndPos(k - 1, q);
    SwapAt(e, s, k - 1, p);
    assert Block(k, j, a)[p] == e[q] == b[r];
    PosStep(k, j - 1, p);
    assert b[r] == a[StatePos(k, j - 1, r)];
  }

  /** The value the j-th block keeps at position k-1. */
  lemma BlockLast<T>(k: nat, j: nat, a: seq<T>)
    requires 1 <= k <= |a| && j < k
    ensures Block(k, j, a)[k - 1] == a[StatePos(k, j, k - 1)]
  {
    BlockIs(k, j, a);
  }

  // =====================================================================
  // Every arrangement is yielded.

  /** The orderings of every block are among the orderings of the loop. */
  lemma {:induction false} BlockInTail<T>(k: nat, j: nat, j': nat, a: seq<T>, o: seq<T>)
    requires 1 <= k <= |a| && j < j' < k
    requires o in Gen(k - 1, Block(k, j', a))
    ensures o in Tail(k, j, End(k - 1, Block(k, j, a)))
    decreases j' - j
  {
    BlockTail(k, j, a);
    if j + 1 < j' {
      BlockInTail(k, j + 1, j', a, o);
    }
  }

  lemma BlockInGen<T>(k: nat, j: nat, a: seq<T>, o: seq<T>)
    requires 1 <= k <= |a| && j < k
    requires o in Gen(k - 1, Block(k, j, a))
    ensures o in Gen(k, a)
  {
    if j > 0 {
      BlockInTail(k, 0, j, a, o);
    }
  }

  /** Two arrangements of a that agree at position k-1 are arrangements of
      each other over the first k-1 positions. */
  lemma ArrangementNarrow<T>(b: seq<T>, s: seq<T>, a: seq<T>, k: nat)
    requires 1 <= k <= |a|
    requires Arrangement(b, a, k) && Arrangement(s, a, k)
    requires b[k - 1] == s[k - 1]
    ensures Arrangement(b, s, k - 1)
  {
    var x := b[k - 1];
    assert b[..k] == b[..k - 1] + [x];
    assert s[..k] == s[..k - 1] + [x];
    calc {
      multiset(b[..k - 1]);
      multiset(b[..k]) - multiset{x};
      multiset(s[..k]) - multiset{x};
      multiset(s[..k - 1]);
    }
    assert b[k - 1..] == [x] + b[k..];
    assert s[k - 1..] == [x] + s[k..];
  }

  /** The value an arrangement puts at k-1 sits below k in the original. */
  lemma ArrangementSource<T>(b: seq<T>, a: seq<T>, k: nat) returns (m: nat)
    requires 1 <= k <= |a|
    requires Arrangement(b, a, k)
    ensures m < k && a[m] == b[k - 1]
  {
    var x := b[k - 1];
    assert b[..k][k - 1] == x;
    assert x in multiset(a[..k]);
    var m' :| 0 <= m' < k && a[..k][m'] == x;
    m := m';
  }

  /** The block of the level-k loop that keeps b's last value at k-1. */
  lemma CoverBlock<T>(k: nat, a: seq<T>, b: seq<T>) returns (j: nat)
    requires 1 <= k <= |a|
    requires Arrangement(b, a, k)
    ensures j < k && Arrangement(b, Block(k, j, a), k - 1)
  {
    var m := ArrangementSource(b, a, k);
    j := LastPosInv(k, m);
    LastPosInverse(k, j, m);
    BlockLast(k, j, a);
    BlockShape(k, j, a);
    ArrangementNarrow(b, Block(k, j, a), a, k);
  }

  lemma {:induction false} GenCovers<T>(k: nat, a: seq<T>, b: seq<T>)
    requires k <= |a|
    requires Arrangement(b, a, k)
    ensures b in Gen(k, a)
  {
    if k == 0 {
      assert b == b[0..] == a[0..] == a;
    } else {
      var j := CoverBlock(k, a, b);
      GenCovers(k - 1, Block(k, j, a), b);
      BlockInGen(k, j, a, b);
    }
  }

  // =====================================================================
  // No ordering is yielded twice when the elements are distinct.

  lemma DistinctLasts<T>(k: nat, j: nat, j': nat, a: seq<T>)
    requires 1 <= k <= |a| && j < k && j' < k && j != j'
    requires Distinct(a[..k])
    ensures Block(k, j, a)[k - 1] != Block(k, j', a)[k - 1]
  {
    BlockLast(k, j, a);
    BlockLast(k, j', a);
    var m, m' := StatePos(k, j, k - 1), StatePos(k, j', k - 1);
    LastPosInverse(k, j, 0);
    LastPosInverse(k, j', 0);
    assert m != m';
    assert a[..k][m] == a[m] && a[..k][m'] == a[m'];
  }

  /** Every block runs on distinct values when the input has them. */
  lemma BlockDistinct<T>(k: nat, j: nat, a: seq<T>)
    requires 1 <= k <= |a| && j < k
    requires Distinct(a[..k])
    ensures Distinct(Block(k, j, a)[..k - 1])
  {
    var s := Block(k, j, a);
    BlockShape(k, j, a);
    DistinctPreserved(a[..k], s[..k]);
    DistinctPrefix(s[..k], k - 1);
    assert s[..k][..k - 1] == s[..k - 1];
  }

  /** Every ordering of a run over the first k-1 positions keeps the value
      at k-1. */
  lemma GenKeepsLast<T>(k: nat, b: seq<T>, o: seq<T>)
    requires 1 <= k <= |b|
    requires o in Gen(k - 1, b)
    ensures |o| == |b| && o[k - 1] == b[k - 1]
  {
    GenShape(k - 1, b);
    assert o[k - 1] == o[k - 1..][0] == b[k - 1..][0];
  }

  /** The blocks still to come after block j keep, at k-1, none of the
      values of blocks 0..j. */
  lemma {:induction false} TailLasts<T>(k: nat, j: nat, a: seq<T>, o: seq<T>, j': nat)
    requires 1 <= k <= |a| && j' <= j < k
    requires Distinct(a[..k])
    requires o in Tail(k, j, End(k - 1, Block(k, j, a)))
    ensures |o| == |a| && o[k - 1] != Block(k, j', a)[k - 1]
    decreases k - j
  {
    var s := Block(k, j + 1, a);
    BlockTail(k, j, a);
    if o in Gen(k - 1, s) {
      GenKeepsLast(k, s, o);
      DistinctLasts(k, j + 1, j', a);
    } else {
      TailLasts(k, j + 1, a, o, j');
    }
  }

  /** The orderings of one block differ from those of the blocks after it. */
  lemma BlockApart<T>(k: nat, j: nat, a: seq<T>, s: seq<T>)
    requires 1 <= k <= |a| && j < k
    requires Distinct(a[..k])
    requires s == Block(k, j, a)
    ensures Apart(Gen(k - 1, s), Tail(k, j, End(k - 1, s)))
  {
    var g, t := Gen(k - 1, s), Tail(k, j, End(k - 1, s));
    forall x, y | 0 <= x < |g| && 0 <= y < |t| ensures g[x] != t[y] {
      GenKeepsLast(k, s, g[x]);
      TailLasts(k, j, a, t[y], j);
    }
  }

  lemma {:induction false} GenDistinct<T>(k: nat, a: seq<T>)
    requires k <= |a|
    requires Distinct(a[..k])
    ensures Distinct(Gen(k, a))
    decreases k, 1, 0
  {
    if k > 0 {
      assert Block(k, 0, a) == a;
      BlockDistinct(k, 0, a);
      GenDistinct(k - 1, a);
      TailDistinct(k, 0, a);
      BlockApart(k, 0, a, a);
      DistinctAppend(Gen(k - 1, a), Tail(k, 0, End(k - 1, a)));
    }
  }

  lemma {:induction false} TailDistinct<T>(k: nat, j: nat, a: seq<T>)
    requires 1 <= k <= |a| && j < k
    requires Distinct(a[..k])
    ensures Distinct(Tail(k, j, End(k - 1, Block(k, j, a))))
    decreases k, 0, k - j
  {
    if j < k - 1 {
      var s := Block(k, j + 1, a);
      BlockTail(k, j, a);
      BlockDistinct(k, j + 1, a);
      GenDistinct(k - 1, s);
      TailDistinct(k, j + 1, a);
      BlockApart(k, j + 1, a, s);
      DistinctAppend(Gen(k - 1, s), Tail(k, j + 1, End(k - 1, s)));
    }
  }

  // =====================================================================
  // The generator over a whole list.

  /** Generating over all n = |a| positions yields a first, then every
      rearrangement of a and nothing else, n! orderings in all, none twice
      when the elements of a are distinct. */
  lemma GenerateAll<T>(a: seq<T>)
    ensures Gen(|a|, a)[0] == a
    ensures |Gen(|a|, a)| == Fact(|a|)
    ensures forall o :: o in Gen(|a|, a) <==> |o| == |a| && multiset(o) == multiset(a)
    ensures Distinct(a) ==> Distinct(Gen(|a|, a))
  {
    var n := |a|;
    GenFirst(n, a);
    GenCount(n, a);
    GenShape(n, a);
    forall o ensures o in Gen(n, a) <==> |o| == n && multiset(o) == multiset(a) {
      ArrangementFull(o, a);
      if |o| == n && multiset(o) == multiset(a) {
        GenCovers(n, a, o);
      }
    }
    if Distinct(a) {
      assert a[..n] == a;
      GenDistinct(n, a);
    }
  }
}
