/** The candidate transforms of `check_reflections`: the axis permutations
    `AXIS_SWAPS` and sign changes `AXIS_REFLECTIONS`
    (calculate_rmsd.py:19-35), and the hard-coded parity masks that go with
    them (calculate_rmsd.py:763-764).

    Swap s and reflection r turn a coordinate row v into the row whose
    component c is v[s[c]] * r[c].  As a matrix this is a signed
    permutation, and its determinant is the sign of s times the product of
    r: the masks are exactly these two factors, so `keep_stereo` skips
    exactly the transforms that are mirror images (determinant -1). */
module AxisTables {
  import opened Seqs
  import opened Vectors

  const AxisSwaps: seq<seq<int>> :=
    [[0, 1, 2], [0, 2, 1], [1, 0, 2], [1, 2, 0], [2, 1, 0], [2, 0, 1]]

  const AxisReflections: seq<seq<int>> :=
    [[1, 1, 1], [-1, 1, 1], [1, -1, 1], [1, 1, -1],
     [-1, -1, 1], [-1, 1, -1], [1, -1, -1], [-1, -1, -1]]

  const SwapMask: seq<int> := [1, -1, -1, 1, -1, 1]

  const ReflectionMask: seq<int> := [1, -1, -1, -1, 1, 1, 1, -1]

  /** How many entries after the first are smaller than it. */
  function SmallerAfter(p: seq<int>): (r: nat)
    requires |p| >= 1
    ensures r <= |p| - 1
  {
    if |p| == 1 then 0
    else SmallerAfter(p[..|p| - 1]) + (if p[|p| - 1] < p[0] then 1 else 0)
  }

  /** The number of out-of-order pairs. */
  function Inversions(p: seq<int>): nat {
    if |p| <= 1 then 0 else SmallerAfter(p) + Inversions(p[1..])
  }

  /** The sign of a permutation: +1 for an even number of inversions. */
  function Sign(p: seq<int>): int {
    if Inversions(p) % 2 == 0 then 1 else -1
  }

  function Product(r: seq<int>): int {
    if r == [] then 1 else r[0] * Product(r[1..])
  }

  /** The inversion count of a sequence of three. */
  lemma InversionsOfThree(a: int, b: int, c: int)
    ensures Inversions([a, b, c]) ==
            (if b < a then 1 else 0) + (if c < a then 1 else 0) + (if c < b then 1 else 0)
  {
    assert [a, b, c][..2] == [a, b] && [a, b][..1] == [a] && [b, c][..1] == [b];
    assert SmallerAfter([a, b, c]) == (if b < a then 1 else 0) + (if c < a then 1 else 0);
    assert SmallerAfter([b, c]) == (if c < b then 1 else 0);
    assert [a, b, c][1..] == [b, c] && [b, c][1..] == [c];
    assert Inversions([b, c]) == SmallerAfter([b, c]) + Inversions([c]);
    assert Inversions([a, b, c]) == SmallerAfter([a, b, c]) + Inversions([b, c]);
  }

  /** Each swap is a permutation of the three axes and each mask entry is
      the sign of its swap. */
  lemma SwapMaskIsSign(k: nat)
    requires k < 6
    ensures IsIndexPermutation(AxisSwaps[k], 3)
    ensures SwapMask[k] == Sign(AxisSwaps[k])
  {
    var s := AxisSwaps[k];
    InversionsOfThree(s[0], s[1], s[2]);
    assert s == [s[0], s[1], s[2]];
    IndexPermutationIff(s, 3);
  }

  /** The six swaps are distinct, so they are all 3! permutations of the
      axes. */
  lemma SwapsAreAll()
    ensures |AxisSwaps| == Fact(3) && |SwapMask| == |AxisSwaps|
    ensures Distinct(AxisSwaps)
  {
  }

  /** The eight reflections are the distinct sign vectors of length three,
      and each mask entry is the product of its reflection's entries. */
  lemma ReflectionMaskIsProduct(j: nat)
    requires j < 8
    ensures |AxisReflections[j]| == 3
    ensures forall c :: 0 <= c < 3 ==> (AxisReflections[j][c] == 1 || AxisReflections[j][c] == -1)
    ensures ReflectionMask[j] == Product(AxisReflections[j])
  {
    var r := AxisReflections[j];
    assert r[1..][1..][1..] == [];
  }

  /** All 2^3 sign vectors appear, each once. */
  lemma ReflectionsAreAll()
    ensures |AxisReflections| == 8 && |ReflectionMask| == |AxisReflections|
    ensures Distinct(AxisReflections)
  {
  }

  /** The unit row vector along axis i, scaled by a. */
  function Axis(i: int, a: real): Vec3 {
    if i == 0 then Vec3(a, 0.0, 0.0)
    else if i == 1 then Vec3(0.0, a, 0.0)
    else Vec3(0.0, 0.0, a)
  }

  /** Component i of v. */
  function Component(v: Vec3, i: int): real {
    if i == 0 then v.x else if i == 1 then v.y else v.z
  }

  /** Swap k followed by reflection j as a matrix acting on column vectors. */
  function Transform(k: nat, j: nat): Mat3
    requires k < 6 && j < 8
  {
    var s, r := AxisSwaps[k], AxisReflections[j];
    Mat3(Axis(s[0], r[0] as real), Axis(s[1], r[1] as real), Axis(s[2], r[2] as real))
  }

  /** `tmp_coord[:, swap]` followed by `np.dot(tmp_coord, np.diag(reflection))`
      sends a coordinate row v to Transform(k, j) applied to v. */
  lemma TransformApplies(k: nat, j: nat, v: Vec3)
    requires k < 6 && j < 8
    ensures var s, r := AxisSwaps[k], AxisReflections[j];
            Apply(Transform(k, j), v) ==
            Vec3(Component(v, s[0]) * r[0] as real, Component(v, s[1]) * r[1] as real,
                 Component(v, s[2]) * r[2] as real)
  {
    var s, r := AxisSwaps[k], AxisReflections[j];
    forall c | 0 <= c < 3
      ensures Dot(Axis(s[c], r[c] as real), v) == Component(v, s[c]) * r[c] as real
    {
      AxisDot(s[c], r[c] as real, v);
    }
  }

  lemma AxisDot(i: int, a: real, v: Vec3)
    ensures Dot(Axis(i, a), v) == Component(v, i) * a
  {
  }

  /** The determinant of a signed permutation matrix is the sign of the
      permutation times the product of the signs. */
  lemma SwapDeterminant(k: nat, a: real, b: real, c: real)
    requires k < 6
    ensures var s := AxisSwaps[k];
            Det(Mat3(Axis(s[0], a), Axis(s[1], b), Axis(s[2], c))) == SwapMask[k] as real * (a * b * c)
  {
    if k == 0 {
      assert Det(Mat3(Axis(0, a), Axis(1, b), Axis(2, c))) == a * b * c;
    } else if k == 1 {
      assert Det(Mat3(Axis(0, a), Axis(2, b), Axis(1, c))) == -(a * b * c);
    } else if k == 2 {
      assert Det(Mat3(Axis(1, a), Axis(0, b), Axis(2, c))) == -(a * b * c);
    } else if k == 3 {
      assert Det(Mat3(Axis(1, a), Axis(2, b), Axis(0, c))) == a * b * c;
    } else if k == 4 {
      assert Det(Mat3(Axis(2, a), Axis(1, b), Axis(0, c))) == -(a * b * c);
    } else {
      assert Det(Mat3(Axis(2, a), Axis(0, b), Axis(1, c))) == a * b * c;
    }
  }

  /** The product of the two masks is the determinant of the transform:
      +1 for a rotation, -1 for a mirror image. */
  lemma MaskIsDeterminant(k: nat, j: nat)
    requires k < 6 && j < 8
    ensures Det(Transform(k, j)) == (SwapMask[k] * ReflectionMask[j]) as real
  {
    var r := AxisReflections[j];
    SwapDeterminant(k, r[0] as real, r[1] as real, r[2] as real);
    SignsProduct(j);
  }

  lemma SignsProduct(j: nat)
    requires j < 8
    ensures var r := AxisReflections[j];
            (r[0] as real) * (r[1] as real) * (r[2] as real) == ReflectionMask[j] as real
  {
  }

  /** A permutation matrix with entries of unit square is orthogonal. */
  lemma SwapOrthogonal(k: nat, a: real, b: real, c: real)
    requires k < 6 && a * a == 1.0 && b * b == 1.0 && c * c == 1.0
    ensures var s := AxisSwaps[k];
            var m := Mat3(Axis(s[0], a), Axis(s[1], b), Axis(s[2], c));
            Mul(Transpose(m), m) == Identity
  {
    if k == 0 {
      assert Mul(Transpose(Mat3(Axis(0, a), Axis(1, b), Axis(2, c))), Mat3(Axis(0, a), Axis(1, b), Axis(2, c))) == Identity;
    } else if k == 1 {
      assert Mul(Transpose(Mat3(Axis(0, a), Axis(2, b), Axis(1, c))), Mat3(Axis(0, a), Axis(2, b), Axis(1, c))) == Identity;
    } else if k == 2 {
      assert Mul(Transpose(Mat3(Axis(1, a), Axis(0, b), Axis(2, c))), Mat3(Axis(1, a), Axis(0, b), Axis(2, c))) == Identity;
    } else if k == 3 {
      assert Mul(Transpose(Mat3(Axis(1, a), Axis(2, b), Axis(0, c))), Mat3(Axis(1, a), Axis(2, b), Axis(0, c))) == Identity;
    } else if k == 4 {
      assert Mul(Transpose(Mat3(Axis(2, a), Axis(1, b), Axis(0, c))), Mat3(Axis(2, a), Axis(1, b), Axis(0, c))) == Identity;
    } else {
      assert Mul(Transpose(Mat3(Axis(2, a), Axis(0, b), Axis(1, c))), Mat3(Axis(2, a), Axis(0, b), Axis(1, c))) == Identity;
    }
  }

  lemma UnitSquare(x: int)
    requires x == 1 || x == -1
    ensures (x as real) * (x as real) == 1.0
  {
  }

  /** Every candidate that `keep_stereo` keeps is a proper rotation, and
      every one it skips is a mirror image. */
  lemma KeptAreRotations(k: nat, j: nat)
    requires k < 6 && j < 8
    ensures !Skipped(true, k, j) <==> IsRotation(Transform(k, j))
  {
    var r := AxisReflections[j];
    ReflectionMaskIsProduct(j);
    UnitSquare(r[0]);
    UnitSquare(r[1]);
    UnitSquare(r[2]);
    SwapOrthogonal(k, r[0] as real, r[1] as real, r[2] as real);
    MaskIsDeterminant(k, j);
    MaskProductSign(k, j);
  }

  lemma MaskProductSign(k: nat, j: nat)
    requires k < 6 && j < 8
    ensures SwapMask[k] * ReflectionMask[j] == 1 || SwapMask[k] * ReflectionMask[j] == -1
  {
  }

  /** `keep_stereo` skips the pair (swap k, reflection j) when the two masks
      disagree, i.e. exactly when the transform is a mirror image. */
  predicate Skipped(keepStereo: bool, k: nat, j: nat)
    requires k < 6 && j < 8
  {
    keepStereo && SwapMask[k] * ReflectionMask[j] == -1
  }

  /** The pairs `keep_stereo` skips are exactly those whose transform has
      determinant -1. */
  lemma SkippedAreMirrorImages(keepStereo: bool, k: nat, j: nat)
    requires k < 6 && j < 8
    ensures Skipped(keepStereo, k, j) <==> keepStereo && Det(Transform(k, j)) == -1.0
  {
    MaskIsDeterminant(k, j);
  }

  /** How many of the first j reflections are evaluated with swap k. */
  function KeptInRow(keepStereo: bool, k: nat, j: nat): (r: nat)
    requires k < 6 && j <= 8
    ensures r <= j
  {
    if j == 0 then 0 else KeptInRow(keepStereo, k, j - 1) + (if Skipped(keepStereo, k, j - 1) then 0 else 1)
  }

  /** How many candidates of the first k swaps are evaluated. */
  function Kept(keepStereo: bool, k: nat): (r: nat)
    requires k <= 6
    ensures r <= 8 * k
  {
    if k == 0 then 0 else Kept(keepStereo, k - 1) + KeptInRow(keepStereo, k - 1, 8)
  }

  /** Within one swap, `keep_stereo` skips four of the eight reflections:
      the reflection mask has four entries of each sign. */
  lemma RowKept(keepStereo: bool, k: nat)
    requires k < 6
    ensures KeptInRow(keepStereo, k, 8) == if keepStereo then 4 else 8
  {
    var s := if keepStereo then SwapMask[k] else 0;
    assert KeptInRow(keepStereo, k, 1) == if s == -1 then 0 else 1;
    assert KeptInRow(keepStereo, k, 2) == if s == 1 then 1 else if s == -1 then 1 else 2;
    assert KeptInRow(keepStereo, k, 3) == if s == 1 then 1 else if s == -1 then 2 else 3;
    assert KeptInRow(keepStereo, k, 4) == if s == 1 then 1 else if s == -1 then 3 else 4;
    assert KeptInRow(keepStereo, k, 5) == if s == 1 then 2 else if s == -1 then 3 else 5;
    assert KeptInRow(keepStereo, k, 6) == if s == 1 then 3 else if s == -1 then 3 else 6;
    assert KeptInRow(keepStereo, k, 7) == if s == 1 then 4 else if s == -1 then 3 else 7;
  }

  /** With `keep_stereo` half of the 48 candidates are evaluated, and each
      of them has mask product +1 (a rotation, by MaskIsDeterminant);
      without it all 48 are. */
  lemma StereoFilter(keepStereo: bool)
    ensures Kept(keepStereo, 6) == if keepStereo then 24 else 48
    ensures forall k, j :: 0 <= k < 6 && 0 <= j < 8 && keepStereo && !Skipped(keepStereo, k, j) ==>
              SwapMask[k] * ReflectionMask[j] == 1
  {
    RowKept(keepStereo, 0);
    RowKept(keepStereo, 1);
    RowKept(keepStereo, 2);
    RowKept(keepStereo, 3);
    RowKept(keepStereo, 4);
    RowKept(keepStereo, 5);
    assert Kept(keepStereo, 1) == KeptInRow(keepStereo, 0, 8);
    assert Kept(keepStereo, 2) == Kept(keepStereo, 1) + KeptInRow(keepStereo, 1, 8);
    assert Kept(keepStereo, 3) == Kept(keepStereo, 2) + KeptInRow(keepStereo, 2, 8);
    assert Kept(keepStereo, 4) == Kept(keepStereo, 3) + KeptInRow(keepStereo, 3, 8);
    assert Kept(keepStereo, 5) == Kept(keepStereo, 4) + KeptInRow(keepStereo, 4, 8);
    assert Kept(keepStereo, 6) == Kept(keepStereo, 5) + KeptInRow(keepStereo, 5, 8);
  }
}
