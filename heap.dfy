/** Heap's permutation generator (`generate_permutations`,
    calculate_rmsd.py:627-646).

    The source is an explicit state machine: a counter list `c`, in-place
    exchanges on `elements` and a `while` loop whose index drops back to 0
    after every yield.  It is modelled by the method GeneratePermutations,
    which appends a snapshot of `elements` at every `yield`, and specified
    by the recursive form of the same algorithm (Gen): a run over the first
    k positions is k blocks, each a run over the first k-1 positions,
    separated by exchanges with position k-1. */
module HeapPermutations {
  import opened Seqs

  /** The position the level-k loop exchanges with position k-1 after its
      j-th block: 0 when k-1 is even, j otherwise (in the source, i = k-1
      and c[i] = j). */
  function SwapIndex(k: nat, j: nat): nat
    requires 1 <= k
  {
    if (k - 1) % 2 == 0 then 0 else j
  }

  /** The orderings yielded while the first k positions of a are permuted,
      in yield order. */
  function Gen<T>(k: nat, a: seq<T>): (r: seq<seq<T>>)
    requires k <= |a|
    ensures |r| >= 1
    decreases k, 1, 0
  {
    if k == 0 then [a] else Gen(k - 1, a) + Tail(k, 0, End(k - 1, a))
  }

  /** The arrangement of a that the run Gen(k, a) leaves behind. */
  function End<T>(k: nat, a: seq<T>): (r: seq<T>)
    requires k <= |a|
    ensures |r| == |a|
    decreases k, 1, 0
  {
    if k == 0 then a else TailEnd(k, 0, End(k - 1, a))
  }

  /** What the level-k loop still yields once it has made j exchanges and
      its current block has left b behind. */
  function Tail<T>(k: nat, j: nat, b: seq<T>): seq<seq<T>>
    requires 1 <= k <= |b| && j < k
    decreases k, 0, k - j
  {
    if j < k - 1 then
      var b' := Swap(b, SwapIndex(k, j), k - 1);
      Gen(k - 1, b') + Tail(k, j + 1, End(k - 1, b'))
    else []
  }

  /** The arrangement the level-k loop leaves behind, from the same state as Tail. */
  function TailEnd<T>(k: nat, j: nat, b: seq<T>): (r: seq<T>)
    requires 1 <= k <= |b| && j < k
    ensures |r| == |b|
    decreases k, 0, k - j
  {
    if j < k - 1 then TailEnd(k, j + 1, End(k - 1, Swap(b, SwapIndex(k, j), k - 1)))
    else b
  }

  // =====================================================================
  // The iterative generator and its connection to Gen.

  /** The orderings the iterative generator still yields from a loop-head
      state in which a run over the first i positions has just finished,
      leaving e, and every loop of level m >= i has made c[m] exchanges. */
  ghost function Rem<T>(c: seq<nat>, i: nat, e: seq<T>): seq<seq<T>>
    requires i <= |c| <= |e|
    decreases |c| - i, if i < |c| then i - c[i] else 0
  {
    if i == |c| then []
    else if c[i] < i then
      var e' := Swap(e, SwapIndex(i + 1, c[i]), i);
      Gen(i, e') + Rem(c[i := c[i] + 1], i, End(i, e'))
    else Rem(c[i := 0], i + 1, e)
  }

  /** At level m, the machine yields the rest of the level-(m+1) loop and
      then carries on one level up with c[m] reset. */
  lemma {:induction false} RemLevel<T>(c: seq<nat>, m: nat, b: seq<T>)
    requires m < |c| <= |b|
    requires c[m] <= m
    ensures Rem(c, m, b) == Tail(m + 1, c[m], b) + Rem(c[m := 0], m + 1, TailEnd(m + 1, c[m], b))
    decreases m - c[m]
  {
    if c[m] < m {
      var b' := Swap(b, SwapIndex(m + 1, c[m]), m);
      var c' := c[m := c[m] + 1];
      RemLevel(c', m, End(m, b'));
      UpdateTwice(c, m, c[m] + 1, 0);
      RemLevelStep(c, m, b);
    }
  }

  /** One exchange of RemLevel's induction. */
  lemma RemLevelStep<T>(c: seq<nat>, m: nat, b: seq<T>)
    requires m < |c| <= |b|
    requires c[m] < m
    requires var e := End(m, Swap(b, SwapIndex(m + 1, c[m]), m));
             Rem(c[m := c[m] + 1], m, e)
               == Tail(m + 1, c[m] + 1, e) + Rem(c[m := 0], m + 1, TailEnd(m + 1, c[m] + 1, e))
    ensures Rem(c, m, b) == Tail(m + 1, c[m], b) + Rem(c[m := 0], m + 1, TailEnd(m + 1, c[m], b))
  {
    var b' := Swap(b, SwapIndex(m + 1, c[m]), m);
    var e := End(m, b');
    var g, t := Gen(m, b'), Tail(m + 1, c[m] + 1, e);
    var z := Rem(c[m := 0], m + 1, TailEnd(m + 1, c[m] + 1, e));
    assert Rem(c, m, b) == g + Rem(c[m := c[m] + 1], m, e);
    assert Tail(m + 1, c[m], b) == g + t;
    assert TailEnd(m + 1, c[m], b) == TailEnd(m + 1, c[m] + 1, e);
    AppendAssoc(g, t, z);
  }

  /** Started at level 0 with every counter below i at zero, the machine
      first yields the rest of a run over the first i positions. */
  lemma {:induction false} RemRun<T>(c: seq<nat>, i: nat, e: seq<T>)
    requires i <= |c| <= |e|
    requires forall x :: 0 <= x < i ==> c[x] == 0
    ensures Rem(c, 0, e) == Gen(i, e)[1..] + Rem(c, i, End(i, e))
  {
    if i > 0 {
      RemRun(c, i - 1, e);
      RemRunStep(c, i, e);
    }
  }

  /** One level of RemRun's induction. */
  lemma RemRunStep<T>(c: seq<nat>, i: nat, e: seq<T>)
    requires 0 < i <= |c| <= |e|
    requires c[i - 1] == 0
    requires Rem(c, 0, e) == Gen(i - 1, e)[1..] + Rem(c, i - 1, End(i - 1, e))
    ensures Rem(c, 0, e) == Gen(i, e)[1..] + Rem(c, i, End(i, e))
  {
    var b := End(i - 1, e);
    var g, t := Gen(i - 1, e), Tail(i, 0, b);
    var z := Rem(c, i, TailEnd(i, 0, b));
    RemLevel(c, i - 1, b);
    UpdateSame(c, i - 1);
    assert Rem(c, i - 1, b) == t + z;
    DropFirstAppend(g, t, z);
    assert Gen(i, e) == g + t;
    assert End(i, e) == TailEnd(i, 0, b);
  }

  lemma {:induction false} GenFirst<T>(k: nat, a: seq<T>)
    requires k <= |a|
    ensures Gen(k, a)[0] == a
  {
    if k > 0 {
      GenFirst(k - 1, a);
    }
  }

  /** The last ordering yielded is the arrangement left behind. */
  lemma {:induction false} GenLast<T>(k: nat, a: seq<T>)
    requires k <= |a|
    ensures Gen(k, a)[|Gen(k, a)| - 1] == End(k, a)
    decreases k, 1, 0
  {
    if k > 0 {
      GenLast(k - 1, a);
      TailLast(k, 0, End(k - 1, a));
    }
  }

  lemma {:induction false} TailLast<T>(k: nat, j: nat, b: seq<T>)
    requires 1 <= k <= |b| && j < k
    ensures Tail(k, j, b) == [] ==> TailEnd(k, j, b) == b
    ensures Tail(k, j, b) != [] ==> Tail(k, j, b)[|Tail(k, j, b)| - 1] == TailEnd(k, j, b)
    decreases k, 0, k - j
  {
    if j < k - 1 {
      var b' := Swap(b, SwapIndex(k, j), k - 1);
      GenLast(k - 1, b');
      TailLast(k, j + 1, End(k - 1, b'));
    }
  }

  /** One yielding step of the machine: exchange, yield, restart at level 0. */
  lemma RemYield<T>(c: seq<nat>, i: nat, e: seq<T>)
    requires i < |c| <= |e|
    requires forall x :: 0 <= x < i ==> c[x] == 0
    requires c[i] < i
    ensures var e' := Swap(e, SwapIndex(i + 1, c[i]), i);
            Rem(c, i, e) == [e'] + Rem(c[i := c[i] + 1], 0, e')
  {
    var e' := Swap(e, SwapIndex(i + 1, c[i]), i);
    var c' := c[i := c[i] + 1];
    var g, z := Gen(i, e'), Rem(c', i, End(i, e'));
    assert forall x :: 0 <= x < i ==> c'[x] == 0;
    RemRun(c', i, e');
    GenFirst(i, e');
    assert g == [e'] + g[1..];
    assert Rem(c, i, e) == g + z;
    AppendAssoc([e'], g[1..], z);
  }

  /** Once the level-i loop has made all its exchanges, the machine moves up a level. */
  lemma RemClimb<T>(c: seq<nat>, i: nat, e: seq<T>)
    requires i < |c| <= |e|
    requires c[i] >= i
    ensures Rem(c, i, e) == Rem(c[i := 0], i + 1, e)
  {
  }

  /** The machine started with all counters at zero, after yielding a, yields
      the rest of the run over the first n positions. */
  lemma RemStart<T>(n: nat, a: seq<T>)
    requires n <= |a|
    ensures [a] + Rem(seq(n, _ => 0), 0, a) == Gen(n, a)
  {
    var c: seq<nat> := seq(n, _ => 0);
    RemRun(c, n, a);
    GenFirst(n, a);
    assert Gen(n, a) == [a] + Gen(n, a)[1..];
  }

  /** `elements[i], elements[j] = elements[j], elements[i]` */
  method Exchange<T>(elements: array<T>, i: nat, j: nat)
    requires i < elements.Length && j < elements.Length
    modifies elements
    ensures elements[..] == Swap(old(elements[..]), i, j)
  {
    elements[i], elements[j] := elements[j], elements[i];
  }

  /** The generator with its counter list `c`, in-place exchanges and
      `while` loop; the snapshot appended to `out` at each step is what the
      source yields there. */
  method GeneratePermutations<T>(elements: array<T>, n: nat) returns (out: seq<seq<T>>)
    requires n <= elements.Length
    modifies elements
    ensures out == Gen(n, old(elements[..]))
    ensures elements[..] == End(n, old(elements[..]))
  {
    ghost var a := elements[..];
    var c: seq<nat> := seq(n, _ => 0);
    out := [elements[..]];
    RemStart(n, a);
    ghost var cur, rem := a, Rem(c, 0, a);
    var i := 0;
    while i < n
      invariant 0 <= i <= n == |c| <= |cur|
      invariant elements[..] == cur
      invariant forall m :: 0 <= m < i ==> c[m] == 0
      invariant forall m :: 0 <= m < n ==> c[m] <= m
      invariant out != [] && Last(out) == cur
      invariant rem == Rem(c, i, cur)
      invariant out + rem == Gen(n, a)
      decreases |rem|, n - i
    {
      if c[i] < i {
        Exchange(elements, if i % 2 == 0 then 0 else c[i], i);
        RemYield(c, i, cur);
        cur := Swap(cur, SwapIndex(i + 1, c[i]), i);
        c := c[i := c[i] + 1];
        AppendAssoc(out, [cur], Rem(c, 0, cur));
        out := out + [elements[..]];
        rem := Rem(c, 0, cur);
        i := 0;
      } else {
        RemClimb(c, i, cur);
        c := c[i := 0];
        i := i + 1;
      }
    }
    GenLast(n, a);
    assert Last(Gen(n, a)) == End(n, a);
  }
}
