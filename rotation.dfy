/** The two special cases of `rotation_matrix_vectors`
    (calculate_rmsd.py:801-829), which should return a rotation taking v1
    onto v2: equal vectors give the identity, opposite vectors a half turn.

    As written, the half turn is always the one about the y axis,
    diag(-1, 1, -1).  That takes v1 to -v1 only when v1 has no y
    component; for v1 = (0, 1, 0) and v2 = (0, -1, 0) it leaves v1 where it
    is.  RotationMatrixVectors models the code as written, and
    RotationMatrixVectorsCorrected turns about an axis perpendicular to v1
    instead, keeping diag(-1, 1, -1) wherever it was already right. */
module Rotation {
  import opened Wrappers
  import opened Vectors

  /** diag(-1, 1, -1): a half turn about the y axis. */
  const HalfTurnY := Mat3(Vec3(-1.0, 0.0, 0.0), Vec3(0.0, 1.0, 0.0), Vec3(0.0, 0.0, -1.0))

  /** `rotation_matrix_vectors` as written, in its two special cases; None
      stands for the general Rodrigues branch, which is not modelled. */
  function RotationMatrixVectors(v1: Vec3, v2: Vec3): (r: Option<Mat3>)
    ensures r.Some? <==> v1 == v2 || v1 == Neg(v2)
  {
    if v1 == v2 then Some(Identity)
    else if v1 == Neg(v2) then Some(HalfTurnY)
    else None
  }

  /** Whenever it answers, the answer is a rotation. */
  lemma RotationMatrixVectorsRotates(v1: Vec3, v2: Vec3)
    ensures var r := RotationMatrixVectors(v1, v2);
            r.Some? ==> IsRotation(r.value)
  {
    var r := RotationMatrixVectors(v1, v2);
    if v1 == v2 {
      IdentityRotates(r.value);
    } else if v1 == Neg(v2) {
      HalfTurnYRotates(r.value);
    } else {
      assert r.None?;
    }
  }

  /** The identity is a rotation. */
  lemma IdentityRotates(m: Mat3)
    requires m == Identity
    ensures IsRotation(m)
  {
    assert Transpose(Identity) == Identity;
  }

  /** diag(-1, 1, -1) is a rotation. */
  lemma HalfTurnYRotates(m: Mat3)
    requires m == HalfTurnY
    ensures IsRotation(m)
  {
    assert Transpose(HalfTurnY) == HalfTurnY;
  }

  /** As written, the matrix for opposite vectors takes v1 onto v2 exactly
      when v1 has no y component. */
  lemma AntiparallelAsWritten(v1: Vec3)
    requires v1 != Zero
    ensures RotationMatrixVectors(v1, Neg(v1)) == Some(HalfTurnY)
    ensures Apply(HalfTurnY, v1) == Neg(v1) <==> v1.y == 0.0
  {
    assert v1.x != 0.0 || v1.y != 0.0 || v1.z != 0.0;
    assert v1 != Neg(v1) by {
      if v1.x != 0.0 { assert v1.x != -v1.x; }
      else if v1.y != 0.0 { assert v1.y != -v1.y; }
      else { assert v1.z != -v1.z; }
    }
    assert Apply(HalfTurnY, v1) == Vec3(-v1.x, v1.y, -v1.z);
  }

  /** The input that shows it: v1 = (0, 1, 0), v2 = -v1 = (0, -1, 0); the
      matrix returned leaves v1 short of v2. */
  lemma AntiparallelCounterexample()
    ensures var v1 := Vec3(0.0, 1.0, 0.0);
            var r := RotationMatrixVectors(v1, Neg(v1));
            r.Some? && Apply(r.value, v1) != Neg(v1)
  {
    var v1 := Vec3(0.0, 1.0, 0.0);
    assert v1.y != 0.0;
    AntiparallelAsWritten(v1);
  }

  /** A half turn about the axis (y, -x, 0), for y != 0: in the xy-plane
      the reflection with cosine Cos and sine Sin below, and z negated. */
  function HalfTurnAbout(x: real, y: real): Mat3 {
    var c, s := Cos(x, y), Sin(x, y);
    Mat3(Vec3(c, s, 0.0), Vec3(s, -c, 0.0), Vec3(0.0, 0.0, -1.0))
  }

  /** (y^2 - x^2) / (x^2 + y^2); the value at the origin is never used. */
  function Cos(x: real, y: real): real {
    var d := x * x + y * y;
    if d > 0.0 then (y * y - x * x) / d else 1.0
  }

  /** -2xy / (x^2 + y^2); the value at the origin is never used. */
  function Sin(x: real, y: real): real {
    var d := x * x + y * y;
    if d > 0.0 then -(2.0 * x * y) / d else 0.0
  }

  /** Away from the x axis the divisions in Cos and Sin are by a positive
      number. */
  lemma CosSinScaled(x: real, y: real)
    requires y != 0.0
    ensures x * x + y * y > 0.0
    ensures Cos(x, y) * (x * x + y * y) == y * y - x * x
    ensures Sin(x, y) * (x * x + y * y) == -(2.0 * x * y)
  {
    PlaneNormPositive(x, y);
  }

  lemma PlaneNormPositive(x: real, y: real)
    ensures y != 0.0 ==> x * x + y * y > 0.0
  {
    SquareNonNegative(x);
    if y != 0.0 {
      SquarePositive(y);
    }
  }

  lemma SquareNonNegative(y: real)
    ensures y * y >= 0.0
  {
    if y != 0.0 {
      SquarePositive(y);
    }
  }

  lemma SquarePositive(y: real)
    requires y != 0.0
    ensures y * y > 0.0
  {
    if y < 0.0 {
      assert y * y == (-y) * (-y);
    }
  }

  /** The in-plane part has unit length and reverses (x, y). */
  lemma HalfTurnUnit(x: real, y: real)
    requires y != 0.0
    ensures var c, s := Cos(x, y), Sin(x, y);
            c * c + s * s == 1.0 && c * x + s * y == -x && s * x - c * y == -y
  {
    CosSinScaled(x, y);
    var c, s, d := Cos(x, y), Sin(x, y), x * x + y * y;
    assert c * d == y * y - x * x;
    assert s * d == -(2.0 * x * y);
    var k := c * c + s * s;
    calc {
      (k * d) * d;
      (c * d) * (c * d) + (s * d) * (s * d);
      (y * y - x * x) * (y * y - x * x) + (2.0 * x * y) * (2.0 * x * y);
      d * d;
    }
    Cancel(k * d, d, d);
    Cancel(k, 1.0, d);
    calc {
      (c * x + s * y) * d;
      (c * d) * x + (s * d) * y;
      (y * y - x * x) * x - (2.0 * x * y) * y;
      -x * d;
    }
    Cancel(c * x + s * y, -x, d);
    calc {
      (s * x - c * y) * d;
      (s * d) * x - (c * d) * y;
      -(2.0 * x * y) * x - (y * y - x * x) * y;
      -y * d;
    }
    Cancel(s * x - c * y, -y, d);
  }

  /** A non-zero factor cancels. */
  lemma Cancel(a: real, b: real, d: real)
    requires d != 0.0 && a * d == b * d
    ensures a == b
  {
    assert (a - b) * d == 0.0;
  }

  /** The half turn about (y, -x, 0) is a rotation and reverses every
      vector whose first two components are x and y. */
  lemma HalfTurnAboutReverses(x: real, y: real, v: Vec3)
    requires y != 0.0 && v.x == x && v.y == y
    ensures IsRotation(HalfTurnAbout(x, y))
    ensures Apply(HalfTurnAbout(x, y), v) == Neg(v)
  {
    HalfTurnUnit(x, y);
  }

  /** The half turn used for opposite vectors, corrected: about y when v1
      lies in the xz-plane, as before, and otherwise about (v1.y, -v1.x, 0),
      which is perpendicular to v1. */
  function AntiparallelTurn(v1: Vec3): Mat3 {
    if v1.y == 0.0 then HalfTurnY else HalfTurnAbout(v1.x, v1.y)
  }

  /** The corrected half turn is a rotation taking v1 to -v1. */
  lemma AntiparallelTurnReverses(v1: Vec3)
    ensures IsRotation(AntiparallelTurn(v1))
    ensures Apply(AntiparallelTurn(v1), v1) == Neg(v1)
  {
    var m := AntiparallelTurn(v1);
    if v1.y == 0.0 {
      HalfTurnYRotates(m);
      HalfTurnYReverses(m, v1);
    } else {
      HalfTurnAboutReverses(v1.x, v1.y, v1);
    }
  }

  /** diag(-1, 1, -1) takes a vector with no y component to its opposite. */
  lemma HalfTurnYReverses(m: Mat3, v: Vec3)
    requires m == HalfTurnY && v.y == 0.0
    ensures Apply(m, v) == Neg(v)
  {
  }

  /** `rotation_matrix_vectors` in its two special cases with the half turn
      corrected: whenever it answers, the answer is a rotation taking v1
      onto v2. */
  function RotationMatrixVectorsCorrected(v1: Vec3, v2: Vec3): (r: Option<Mat3>)
    ensures r.Some? <==> v1 == v2 || v1 == Neg(v2)
  {
    if v1 == v2 then Some(Identity)
    else if v1 == Neg(v2) then Some(AntiparallelTurn(v1))
    else None
  }

  /** Whenever the corrected version answers, the answer is a rotation
      taking v1 onto v2. */
  lemma RotationMatrixVectorsCorrectedAligns(v1: Vec3, v2: Vec3)
    ensures var r := RotationMatrixVectorsCorrected(v1, v2);
            r.Some? ==> IsRotation(r.value) && Apply(r.value, v1) == v2
  {
    var r := RotationMatrixVectorsCorrected(v1, v2);
    if v1 == v2 {
      IdentityRotates(r.value);
      IdentityFixes(r.value, v1);
    } else if v1 == Neg(v2) {
      assert r.value == AntiparallelTurn(v1);
      assert v2 == Neg(v1);
      AntiparallelTurnReverses(v1);
    } else {
      assert r.None?;
    }
  }

  lemma IdentityFixes(m: Mat3, v: Vec3)
    requires m == Identity
    ensures Apply(m, v) == v
  {
  }
}
