/** The 4x4 matrices of quaternion multiplication, `makeW` and `makeQ`
    (calculate_rmsd.py:409-430).  For a quaternion r = (r1, r2, r3, r4)
    with scalar part r4, makeW(r) and makeQ(r) multiply by r from the two
    sides, which is why each is r4 times the identity plus an
    antisymmetric matrix and an orthogonal matrix scaled by the squared
    norm of r. */
module Quaternion {

  type Matrix = seq<seq<real>>

  predicate Square4(m: Matrix) {
    |m| == 4 && forall i :: 0 <= i < 4 ==> |m[i]| == 4
  }

  /** `makeW(r1, r2, r3, r4)`; the source's default r4 = 0 is the caller
      passing 0.0. */
  function MakeW(r1: real, r2: real, r3: real, r4: real): (w: Matrix)
    ensures Square4(w)
  {
    [[r4, r3, -r2, r1],
     [-r3, r4, r1, r2],
     [r2, -r1, r4, r3],
     [-r1, -r2, -r3, r4]]
  }

  /** `makeQ(r1, r2, r3, r4)`. */
  function MakeQ(r1: real, r2: real, r3: real, r4: real): (q: Matrix)
    ensures Square4(q)
  {
    [[r4, -r3, r2, r1],
     [r3, r4, -r1, r2],
     [-r2, r1, r4, r3],
     [-r1, -r2, -r3, r4]]
  }

  /** Entry (i, j) of the transpose of a times a: the dot product of
      columns i and j. */
  function GramAt(a: Matrix, i: nat, j: nat): real
    requires Square4(a) && i < 4 && j < 4
  {
    a[0][i] * a[0][j] + a[1][i] * a[1][j] + a[2][i] * a[2][j] + a[3][i] * a[3][j]
  }

  function NormSq(r1: real, r2: real, r3: real, r4: real): real {
    r1 * r1 + r2 * r2 + r3 * r3 + r4 * r4
  }

  /** makeW(r) is r4 times the identity plus an antisymmetric matrix: with
      the default r4 = 0 it is antisymmetric. */
  lemma MakeWSkew(r1: real, r2: real, r3: real, r4: real, i: nat, j: nat)
    requires i < 4 && j < 4
    ensures MakeW(r1, r2, r3, r4)[i][j] + MakeW(r1, r2, r3, r4)[j][i] == if i == j then 2.0 * r4 else 0.0
  {
  }

  /** makeQ(r) is r4 times the identity plus an antisymmetric matrix. */
  lemma MakeQSkew(r1: real, r2: real, r3: real, r4: real, i: nat, j: nat)
    requires i < 4 && j < 4
    ensures MakeQ(r1, r2, r3, r4)[i][j] + MakeQ(r1, r2, r3, r4)[j][i] == if i == j then 2.0 * r4 else 0.0
  {
  }

  /** The columns of makeW(r) are orthogonal, each of squared length |r|^2:
      transpose(W) W = |r|^2 I. */
  lemma MakeWOrthogonal(r1: real, r2: real, r3: real, r4: real, i: nat, j: nat)
    requires i < 4 && j < 4
    ensures GramAt(MakeW(r1, r2, r3, r4), i, j) == if i == j then NormSq(r1, r2, r3, r4) else 0.0
  {
  }

  /** The same for makeQ(r). */
  lemma MakeQOrthogonal(r1: real, r2: real, r3: real, r4: real, i: nat, j: nat)
    requires i < 4 && j < 4
    ensures GramAt(MakeQ(r1, r2, r3, r4), i, j) == if i == j then NormSq(r1, r2, r3, r4) else 0.0
  {
  }
}
