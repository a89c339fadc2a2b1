/** `check_reflections` (calculate_rmsd.py:733-798): try every axis swap
    with every axis reflection of q, reorder and score each candidate, and
    keep the first one with the smallest score.

    The coordinates enter only through two oracles: the reorder method,
    which for swap k and reflection j answers with a review (or raises),
    and the score, which for the same candidate and its review answers with
    the RMSD after rotation, or raises: `kabsch_rmsd` and `rmsd` raise a
    ValueError when p and the reviewed q differ in length.  Candidate (k, j) is the k-th entry of
    `AXIS_SWAPS` with the j-th entry of `AXIS_REFLECTIONS`; the 48
    candidates are visited row by row, swap-major. */
module Reflections {
  import opened Wrappers
  import opened Vectors
  import opened Reorder
  import opened AxisTables

  /** The reorder method applied to p and the transformed q. */
  type ReorderOracle = (nat, nat) -> Result<seq<int>, ReorderError>

  /** The rotation method (or plain `rmsd`) applied to p and the
      transformed, reviewed q; None where it raises. */
  type ScoreOracle = (nat, nat, Option<seq<int>>) -> Option<real>

  /** `min_rmsd, min_swap, min_reflection, min_review`. */
  datatype Best = Best(rmsd: real, swap: seq<int>, reflection: seq<int>, review: Option<seq<int>>)

  datatype ReflectionError =
    | ReorderRaised(error: ReorderError)  // the reorder method raised
    | ReviewOutOfRange                    // `tmp_coord[tmp_review]` raised
    | ScoreRaised                         // the rotation method or `rmsd` raised
    | NotAligned                          // "error: Not aligned", then quit

  /** What happens to one candidate. */
  datatype Slot =
    | Skip               // an enantiomer skipped under `keep_stereo`
    | Raise(error: ReflectionError)
    | Score(best: Best)  // evaluated: its score, transform and review

  /** Candidate (k, j): skipped exactly when `keep_stereo` rules out its
      mirror-image transform; when evaluated, it carries swap k and
      reflection j and a review that indexes q; without a reorder method it
      has no review and only the score can raise. */
  function SlotAt(keepStereo: bool, reorder: Option<ReorderOracle>, score: ScoreOracle, qLength: nat,
                  k: nat, j: nat): (r: Slot)
    requires k < 6 && j < 8
    ensures r.Skip? <==> Skipped(keepStereo, k, j)
    ensures r.Score? ==> r.best.swap == AxisSwaps[k] && r.best.reflection == AxisReflections[j]
    ensures r.Score? && r.best.review.Some? ==> Indexes(r.best.review.value, qLength)
    ensures reorder.None? && r.Raise? ==> r.error == ScoreRaised
    ensures reorder.None? && r.Score? ==> r.best.review.None?
  {
    if Skipped(keepStereo, k, j) then Skip
    else if reorder.None? then Evaluate(score(k, j, None), k, j, None)
    else
      match reorder.value(k, j)
      case Failure(e) => Raise(ReorderRaised(e))
      case Success(v) =>
        if !Indexes(v, qLength) then Raise(ReviewOutOfRange)
        else Evaluate(score(k, j, Some(v)), k, j, Some(v))
  }

  /** A candidate that reached the rotation step. */
  function Evaluate(rmsd: Option<real>, k: nat, j: nat, review: Option<seq<int>>): Slot
    requires k < 6 && j < 8
  {
    if rmsd.None? then Raise(ScoreRaised)
    else Score(Best(rmsd.value, AxisSwaps[k], AxisReflections[j], review))
  }

  /** The eight candidates of swap k, in order. */
  function RowSlots(keepStereo: bool, reorder: Option<ReorderOracle>, score: ScoreOracle, qLength: nat,
                    k: nat): (r: seq<Slot>)
    requires k < 6
    ensures |r| == 8
    ensures forall j :: 0 <= j < 8 ==> r[j] == SlotAt(keepStereo, reorder, score, qLength, k, j)
  {
    seq(8, j requires 0 <= j < 8 => SlotAt(keepStereo, reorder, score, qLength, k, j))
  }

  /** The candidates of the first k swaps, in the order the loops visit
      them. */
  function Slots(keepStereo: bool, reorder: Option<ReorderOracle>, score: ScoreOracle, qLength: nat,
                 k: nat): (r: seq<Slot>)
    requires k <= 6
  {
    if k == 0 then []
    else Slots(keepStereo, reorder, score, qLength, k - 1) + RowSlots(keepStereo, reorder, score, qLength, k - 1)
  }

  /** The first error among the slots, if any. */
  function Raised(xs: seq<Slot>): (r: Option<ReflectionError>)
    ensures r.None? <==> forall i :: 0 <= i < |xs| ==> !xs[i].Raise?
  {
    if xs == [] then None
    else
      var m := Raised(xs[..|xs| - 1]);
      if m.Some? then m
      else if xs[|xs| - 1].Raise? then Some(xs[|xs| - 1].error)
      else None
  }

  /** The error reported is the one of the first slot that raised, at
      position i. */
  lemma {:induction false} RaisedIsFirst(xs: seq<Slot>) returns (i: nat)
    requires Raised(xs).Some?
    ensures i < |xs| && xs[i] == Raise(Raised(xs).value)
    ensures forall i' :: 0 <= i' < i ==> !xs[i'].Raise?
  {
    var pre := xs[..|xs| - 1];
    if Raised(pre).Some? {
      i := RaisedIsFirst(pre);
      assert xs[i] == pre[i];
      assert forall i' :: 0 <= i' < i ==> xs[i'] == pre[i'];
    } else {
      i := |xs| - 1;
      assert forall i' :: 0 <= i' < i ==> xs[i'] == pre[i'];
    }
  }

  /** Where the running minimum `this_rmsd < min_rmsd` ends up: the first
      evaluated slot whose score no evaluated slot beats.  None is
      `min_rmsd = np.inf` with nothing evaluated yet. */
  function Tally(xs: seq<Slot>): (r: Option<nat>)
    ensures r.Some? <==> exists i :: 0 <= i < |xs| && xs[i].Score?
    ensures r.Some? ==> r.value < |xs| && xs[r.value].Score?
    ensures r.Some? ==> forall i :: 0 <= i < |xs| && xs[i].Score? ==> xs[r.value].best.rmsd <= xs[i].best.rmsd
    ensures r.Some? ==> forall i :: 0 <= i < r.value && xs[i].Score? ==> xs[r.value].best.rmsd < xs[i].best.rmsd
  {
    if xs == [] then None
    else
      var m := Tally(xs[..|xs| - 1]);
      var x := xs[|xs| - 1];
      if x.Score? && (m.None? || x.best.rmsd < xs[m.value].best.rmsd) then Some(|xs| - 1) else m
  }

  /** The running minimum as the loop keeps it. */
  function Winner(xs: seq<Slot>): Option<Best> {
    var t := Tally(xs);
    if t.Some? then Some(xs[t.value].best) else None
  }

  /** The final check `(p_atoms == q_atoms[min_review]).all()`: without a
      review q itself must carry p's labels, with one q read through it. */
  predicate Aligned<L(==)>(p: seq<L>, q: seq<L>, review: Option<seq<int>>)
    requires review.Some? ==> Indexes(review.value, |q|)
  {
    match review
    case None => p == q
    case Some(v) => |v| == |p| && forall i :: 0 <= i < |v| ==> q[PyIndex(v[i], |q|)] == p[i]
  }

  /** The outcome of `check_reflections`: the first error raised in visiting
      order, otherwise the winner if it passes the alignment check. */
  function CheckReflectionsSpec<L(==)>(p: seq<L>, q: seq<L>, keepStereo: bool,
                                       reorder: Option<ReorderOracle>, score: ScoreOracle)
    : Result<Best, ReflectionError>
  {
    var xs := Slots(keepStereo, reorder, score, |q|, 6);
    var e := Raised(xs);
    if e.Some? then Failure(e.value)
    else
      FirstSlotScores(keepStereo, reorder, score, |q|);
      var b := Winner(xs).value;
      ScoredReviewIndexes(xs, Tally(xs).value, |q|, keepStereo, reorder, score);
      if Aligned(p, q, b.review) then Success(b) else Failure(NotAligned)
  }

  // ---------------------------------------------------------------------
  // Facts about the slots.

  lemma SlotsLength(keepStereo: bool, reorder: Option<ReorderOracle>, score: ScoreOracle, qLength: nat, k: nat)
    requires k <= 6
    ensures |Slots(keepStereo, reorder, score, qLength, k)| == 8 * k
  {
    if k > 0 {
      SlotsLength(keepStereo, reorder, score, qLength, k - 1);
    }
  }

  /** Candidate (k, j) sits at position 8k + j of the visiting order. */
  lemma {:induction false} SlotsAt(keepStereo: bool, reorder: Option<ReorderOracle>, score: ScoreOracle, qLength: nat,
                                   n: nat, k: nat, j: nat)
    requires k < n <= 6 && j < 8
    ensures |Slots(keepStereo, reorder, score, qLength, n)| == 8 * n
    ensures Slots(keepStereo, reorder, score, qLength, n)[8 * k + j] == SlotAt(keepStereo, reorder, score, qLength, k, j)
  {
    SlotsLength(keepStereo, reorder, score, qLength, n);
    SlotsLength(keepStereo, reorder, score, qLength, n - 1);
    if k < n - 1 {
      SlotsAt(keepStereo, reorder, score, qLength, n - 1, k, j);
    }
  }

  /** Every position of the visiting order is some candidate (k, j). */
  lemma SlotsCover(keepStereo: bool, reorder: Option<ReorderOracle>, score: ScoreOracle, qLength: nat, i: nat)
    requires i < |Slots(keepStereo, reorder, score, qLength, 6)|
    ensures i / 8 < 6 && i % 8 < 8 && 8 * (i / 8) + i % 8 == i
    ensures Slots(keepStereo, reorder, score, qLength, 6)[i] == SlotAt(keepStereo, reorder, score, qLength, i / 8, i % 8)
  {
    SlotsLength(keepStereo, reorder, score, qLength, 6);
    SlotsAt(keepStereo, reorder, score, qLength, 6, i / 8, i % 8);
  }

  /** The identity candidate (0, 0) is never skipped, so once nothing
      raised, something was evaluated. */
  lemma FirstSlotScores(keepStereo: bool, reorder: Option<ReorderOracle>, score: ScoreOracle, qLength: nat)
    ensures var xs := Slots(keepStereo, reorder, score, qLength, 6);
            Raised(xs).None? ==> Tally(xs).Some?
  {
    var xs := Slots(keepStereo, reorder, score, qLength, 6);
    SlotsAt(keepStereo, reorder, score, qLength, 6, 0, 0);
    assert !Skipped(keepStereo, 0, 0);
    if Raised(xs).None? {
      assert !xs[0].Raise?;
      assert xs[0].Score?;
    }
  }

  /** An evaluated slot's review indexes q. */
  lemma ScoredReviewIndexes(xs: seq<Slot>, i: nat, qLength: nat,
                            keepStereo: bool, reorder: Option<ReorderOracle>, score: ScoreOracle)
    requires xs == Slots(keepStereo, reorder, score, qLength, 6)
    requires i < |xs| && xs[i].Score?
    ensures xs[i].best.review.Some? ==> Indexes(xs[i].best.review.value, qLength)
  {
    SlotsCover(keepStereo, reorder, score, qLength, i);
  }

  // ---------------------------------------------------------------------
  // The loops.

  /** `check_reflections` with both loops and the running minimum. */
  method CheckReflections<L(==)>(p: seq<L>, q: seq<L>, keepStereo: bool,
                                 reorder: Option<ReorderOracle>, score: ScoreOracle)
    returns (res: Result<Best, ReflectionError>)
    ensures res == CheckReflectionsSpec(p, q, keepStereo, reorder, score)
  {
    var minBest: Option<Best> := None;
    for k := 0 to 6
      invariant Raised(Slots(keepStereo, reorder, score, |q|, k)).None?
      invariant minBest == Winner(Slots(keepStereo, reorder, score, |q|, k))
    {
      var err;
      err, minBest := VisitRow(keepStereo, reorder, score, |q|, k, minBest);
      if err.Some? {
        return Failure(err.value);
      }
    }
    ghost var xs := Slots(keepStereo, reorder, score, |q|, 6);
    FirstSlotScores(keepStereo, reorder, score, |q|);
    ScoredReviewIndexes(xs, Tally(xs).value, |q|, keepStereo, reorder, score);
    var b := minBest.value;
    var aligned := AllAligned(p, q, b.review);
    if !aligned {
      return Failure(NotAligned);
    }
    return Success(b);
  }

  /** The inner loop over the reflections for swap k: it either meets the
      first error of the whole search, or extends the running minimum over
      one more row of candidates. */
  method VisitRow(keepStereo: bool, reorder: Option<ReorderOracle>, score: ScoreOracle, qLength: nat,
                  k: nat, minBest: Option<Best>) returns (err: Option<ReflectionError>, best: Option<Best>)
    requires k < 6
    requires Raised(Slots(keepStereo, reorder, score, qLength, k)).None?
    requires minBest == Winner(Slots(keepStereo, reorder, score, qLength, k))
    ensures err.Some? ==> err == Raised(Slots(keepStereo, reorder, score, qLength, 6))
    ensures err.None? ==> Raised(Slots(keepStereo, reorder, score, qLength, k + 1)).None? &&
                          best == Winner(Slots(keepStereo, reorder, score, qLength, k + 1))
  {
    ghost var done := Slots(keepStereo, reorder, score, qLength, k);
    ghost var row := RowSlots(keepStereo, reorder, score, qLength, k);
    assert done + row[..0] == done;
    best := minBest;
    for j := 0 to 8
      invariant Raised(done + row[..j]).None?
      invariant best == Winner(done + row[..j])
    {
      ghost var pre := done + row[..j];
      ExtendSlice(done, row, j);
      var slot := Visit(keepStereo, reorder, score, qLength, k, j);
      Step(pre, slot);
      if slot.Raise? {
        RaiseInAll(keepStereo, reorder, score, qLength, k, pre + [slot]);
        return Some(slot.error), best;
      }
      if slot.Score? && (best.None? || slot.best.rmsd < best.value.rmsd) {
        best := Some(slot.best);
      }
    }
    assert row[..8] == row;
    return None, best;
  }

  /** The body of the inner loop for candidate (k, j): the `keep_stereo`
      test, then the reorder method and its review, then the score. */
  method Visit(keepStereo: bool, reorder: Option<ReorderOracle>, score: ScoreOracle, qLength: nat,
               k: nat, j: nat) returns (slot: Slot)
    requires k < 6 && j < 8
    ensures slot == SlotAt(keepStereo, reorder, score, qLength, k, j)
  {
    if keepStereo && SwapMask[k] * ReflectionMask[j] == -1 {
      return Skip;
    }
    var tmpReview: Option<seq<int>> := None;
    if reorder.Some? {
      var r := reorder.value(k, j);
      if r.Failure? {
        return Raise(ReorderRaised(r.error));
      }
      if !Indexes(r.value, qLength) {
        return Raise(ReviewOutOfRange);
      }
      tmpReview := Some(r.value);
    }
    var thisRmsd := score(k, j, tmpReview);
    if thisRmsd.None? {
      return Raise(ScoreRaised);
    }
    return Score(Best(thisRmsd.value, AxisSwaps[k], AxisReflections[j], tmpReview));
  }

  /** `(p_atoms == q_atoms[min_review]).all()`, label by label. */
  method AllAligned<L(==)>(p: seq<L>, q: seq<L>, review: Option<seq<int>>) returns (ok: bool)
    requires review.Some? ==> Indexes(review.value, |q|)
    ensures ok == Aligned(p, q, review)
  {
    if review.None? {
      return p == q;
    }
    var v := review.value;
    if |v| != |p| {
      return false;
    }
    for i := 0 to |v|
      invariant forall i' :: 0 <= i' < i ==> q[PyIndex(v[i'], |q|)] == p[i']
    {
      if q[PyIndex(v[i], |q|)] != p[i] {
        return false;
      }
    }
    return true;
  }

  lemma ExtendSlice(xs: seq<Slot>, ys: seq<Slot>, j: nat)
    requires j < |ys|
    ensures xs + ys[..j + 1] == (xs + ys[..j]) + [ys[j]]
  {
    assert ys[..j + 1] == ys[..j] + [ys[j]];
  }

  /** One more slot: the first error stays first, and the running minimum
      moves only to a strictly smaller score. */
  lemma Step(xs: seq<Slot>, x: Slot)
    ensures Raised(xs + [x]) ==
            if Raised(xs).Some? then Raised(xs) else if x.Raise? then Some(x.error) else None
    ensures var w := Winner(xs);
            Winner(xs + [x]) ==
            if x.Score? && (w.None? || x.best.rmsd < w.value.rmsd) then Some(x.best) else w
  {
    assert (xs + [x])[..|xs|] == xs;
  }

  /** The first error of a prefix of the visiting order is the first error
      of the whole order. */
  lemma RaiseInAll(keepStereo: bool, reorder: Option<ReorderOracle>, score: ScoreOracle, qLength: nat,
                   k: nat, pre: seq<Slot>)
    requires k < 6 && Raised(pre).Some?
    requires pre <= Slots(keepStereo, reorder, score, qLength, k + 1)
    ensures Raised(Slots(keepStereo, reorder, score, qLength, 6)) == Raised(pre)
  {
    var all := Slots(keepStereo, reorder, score, qLength, 6);
    SlotsPrefix(keepStereo, reorder, score, qLength, k + 1, 6);
    RaisedExtends(pre, all);
  }

  lemma {:induction false} SlotsPrefix(keepStereo: bool, reorder: Option<ReorderOracle>, score: ScoreOracle, qLength: nat,
                                       k: nat, n: nat)
    requires k <= n <= 6
    ensures Slots(keepStereo, reorder, score, qLength, k) <= Slots(keepStereo, reorder, score, qLength, n)
  {
    if k < n {
      SlotsPrefix(keepStereo, reorder, score, qLength, k, n - 1);
    }
  }

  /** Once an error is raised, what follows does not matter. */
  lemma {:induction false} RaisedExtends(xs: seq<Slot>, ys: seq<Slot>)
    requires xs <= ys && Raised(xs).Some?
    ensures Raised(ys) == Raised(xs)
    decreases |ys|
  {
    if |ys| > |xs| {
      assert xs <= ys[..|ys| - 1];
      RaisedExtends(xs, ys[..|ys| - 1]);
    } else {
      assert xs == ys;
    }
  }

  // ---------------------------------------------------------------------
  // What the result means.

  /** Candidate (k', j') is visited before candidate (k, j). */
  predicate Before(k': nat, j': nat, k: nat, j: nat) {
    k' < k || (k' == k && j' < j)
  }

  /** On success no evaluated candidate scores lower than the result. */
  lemma CheckReflectionsMinimal<L>(p: seq<L>, q: seq<L>, keepStereo: bool,
                                   reorder: Option<ReorderOracle>, score: ScoreOracle)
    ensures var res := CheckReflectionsSpec(p, q, keepStereo, reorder, score);
            res.Success? ==>
              forall k, j :: 0 <= k < 6 && 0 <= j < 8 && SlotAt(keepStereo, reorder, score, |q|, k, j).Score? ==>
                res.value.rmsd <= SlotAt(keepStereo, reorder, score, |q|, k, j).best.rmsd
  {
    var res := CheckReflectionsSpec(p, q, keepStereo, reorder, score);
    if res.Success? {
      var xs := Slots(keepStereo, reorder, score, |q|, 6);
      FirstSlotScores(keepStereo, reorder, score, |q|);
      var t := Tally(xs).value;
      assert res.value == xs[t].best;
      forall k, j | 0 <= k < 6 && 0 <= j < 8 && SlotAt(keepStereo, reorder, score, |q|, k, j).Score?
        ensures res.value.rmsd <= SlotAt(keepStereo, reorder, score, |q|, k, j).best.rmsd
      {
        SlotsAt(keepStereo, reorder, score, |q|, 6, k, j);
        assert xs[8 * k + j].Score?;
      }
    }
  }

  /** On success the result is an evaluated candidate (a proper rotation
      under `keep_stereo`), and every candidate visited before it that was
      evaluated scores strictly higher: ties go to the first. */
  lemma CheckReflectionsWinner<L>(p: seq<L>, q: seq<L>, keepStereo: bool,
                                  reorder: Option<ReorderOracle>, score: ScoreOracle)
    ensures var res := CheckReflectionsSpec(p, q, keepStereo, reorder, score);
            res.Success? ==>
              exists k, j :: 0 <= k < 6 && 0 <= j < 8 &&
                SlotAt(keepStereo, reorder, score, |q|, k, j) == Score(res.value) &&
                (keepStereo ==> IsRotation(Transform(k, j))) &&
                forall k', j' :: 0 <= k' < 6 && 0 <= j' < 8 && Before(k', j', k, j) &&
                                 SlotAt(keepStereo, reorder, score, |q|, k', j').Score? ==>
                                   res.value.rmsd < SlotAt(keepStereo, reorder, score, |q|, k', j').best.rmsd
  {
    var res := CheckReflectionsSpec(p, q, keepStereo, reorder, score);
    if res.Success? {
      var xs := Slots(keepStereo, reorder, score, |q|, 6);
      FirstSlotScores(keepStereo, reorder, score, |q|);
      var t := Tally(xs).value;
      assert res.value == xs[t].best;
      SlotsCover(keepStereo, reorder, score, |q|, t);
      var k, j := t / 8, t % 8;
      assert SlotAt(keepStereo, reorder, score, |q|, k, j) == Score(res.value);
      forall k', j' | 0 <= k' < 6 && 0 <= j' < 8 && Before(k', j', k, j) &&
                      SlotAt(keepStereo, reorder, score, |q|, k', j').Score?
        ensures res.value.rmsd < SlotAt(keepStereo, reorder, score, |q|, k', j').best.rmsd
      {
        SlotsAt(keepStereo, reorder, score, |q|, 6, k', j');
        assert 8 * k' + j' < t;
        assert xs[8 * k' + j'].Score?;
      }
      if keepStereo {
        KeptAreRotations(k, j);
      }
    }
  }

  /** Every error other than the alignment check is the one raised by the
      first candidate that raised. */
  lemma CheckReflectionsRaises<L>(p: seq<L>, q: seq<L>, keepStereo: bool,
                                      reorder: Option<ReorderOracle>, score: ScoreOracle)
    ensures var res := CheckReflectionsSpec(p, q, keepStereo, reorder, score);
            res.Failure? && res.error != NotAligned ==>
              exists k, j :: 0 <= k < 6 && 0 <= j < 8 &&
                SlotAt(keepStereo, reorder, score, |q|, k, j) == Raise(res.error) &&
                forall k', j' :: 0 <= k' < 6 && 0 <= j' < 8 && Before(k', j', k, j) ==>
                                 !SlotAt(keepStereo, reorder, score, |q|, k', j').Raise?
  {
    var res := CheckReflectionsSpec(p, q, keepStereo, reorder, score);
    var xs := Slots(keepStereo, reorder, score, |q|, 6);
    if Raised(xs).Some? {
      var t := RaisedIsFirst(xs);
      SlotsCover(keepStereo, reorder, score, |q|, t);
      var k, j := t / 8, t % 8;
      forall k', j' | 0 <= k' < 6 && 0 <= j' < 8 && Before(k', j', k, j)
        ensures !SlotAt(keepStereo, reorder, score, |q|, k', j').Raise?
      {
        SlotsAt(keepStereo, reorder, score, |q|, 6, k', j');
      }
    }
  }

  /** Without a reorder method only the score can raise; on success the
      winner has no review and q carries p's labels in order; and when the
      score answers on every candidate, the check passes exactly when
      p == q. */
  lemma CheckReflectionsWithoutReorder<L>(p: seq<L>, q: seq<L>, keepStereo: bool, score: ScoreOracle)
    ensures var res := CheckReflectionsSpec(p, q, keepStereo, None, score);
            (res.Failure? ==> res.error == NotAligned || res.error == ScoreRaised) &&
            (res.Success? ==> p == q && res.value.review.None?) &&
            ((forall k: nat, j: nat :: k < 6 && j < 8 ==> score(k, j, None).Some?) ==> (res.Success? <==> p == q))
  {
    var xs := Slots(keepStereo, None, score, |q|, 6);
    SlotsLength(keepStereo, None, score, |q|, 6);
    forall i | 0 <= i < |xs|
      ensures xs[i].Raise? ==> xs[i].error == ScoreRaised
      ensures xs[i].Score? ==> xs[i].best.review.None?
      ensures (forall k: nat, j: nat :: k < 6 && j < 8 ==> score(k, j, None).Some?) ==> !xs[i].Raise?
    {
      SlotsCover(keepStereo, None, score, |q|, i);
    }
    if Raised(xs).Some? {
      var t := RaisedIsFirst(xs);
    }
    FirstSlotScores(keepStereo, None, score, |q|);
  }

  /** `kabsch_rmsd` and `rmsd` raise when p and q differ in length: with
      such a score and no reorder method, a length mismatch is reported as
      the score's error, never as a failed alignment. */
  lemma CheckReflectionsLengthMismatch<L>(p: seq<L>, q: seq<L>, keepStereo: bool, score: ScoreOracle)
    requires |p| != |q|
    requires forall k: nat, j: nat :: k < 6 && j < 8 ==> score(k, j, None).None?
    ensures CheckReflectionsSpec(p, q, keepStereo, None, score) == Failure(ScoreRaised)
  {
    var xs := Slots(keepStereo, None, score, |q|, 6);
    SlotsAt(keepStereo, None, score, |q|, 6, 0, 0);
    assert !Skipped(keepStereo, 0, 0);
    assert xs[0] == Raise(ScoreRaised);
    var t := RaisedIsFirst(xs);
    assert t == 0;
  }

  /** A reorder method that always answers with a review under which q
      reads as p makes the whole search succeed. */
  lemma CheckReflectionsWithAligningReorder<L>(p: seq<L>, q: seq<L>, keepStereo: bool,
                                                   reorder: ReorderOracle, score: ScoreOracle)
    requires forall k: nat, j: nat :: k < 6 && j < 8 ==>
               reorder(k, j).Success? && Indexes(reorder(k, j).value, |q|) && Aligned(p, q, Some(reorder(k, j).value))
    ensures var res := CheckReflectionsSpec(p, q, keepStereo, Some(reorder), score);
            res.Success? || res.error == ScoreRaised
    ensures (forall k: nat, j: nat :: k < 6 && j < 8 ==> score(k, j, Some(reorder(k, j).value)).Some?) ==>
            CheckReflectionsSpec(p, q, keepStereo, Some(reorder), score).Success?
  {
    var xs := Slots(keepStereo, Some(reorder), score, |q|, 6);
    SlotsLength(keepStereo, Some(reorder), score, |q|, 6);
    forall i | 0 <= i < |xs|
      ensures xs[i].Raise? ==> xs[i].error == ScoreRaised
      ensures (forall k: nat, j: nat :: k < 6 && j < 8 ==> score(k, j, Some(reorder(k, j).value)).Some?) ==> !xs[i].Raise?
      ensures xs[i].Score? ==> exists k: nat, j: nat :: k < 6 && j < 8 && xs[i].best.review == Some(reorder(k, j).value)
    {
      SlotsCover(keepStereo, Some(reorder), score, |q|, i);
    }
    if Raised(xs).Some? {
      var t := RaisedIsFirst(xs);
    }
    FirstSlotScores(keepStereo, Some(reorder), score, |q|);
  }
}
