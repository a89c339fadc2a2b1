/** Masses, centre of mass and the tensor of inertia (`get_cm`,
    calculate_rmsd.py:832-845, and `get_inertia_tensor`,
    calculate_rmsd.py:848-879), over exact reals. */
module Inertia {
  import opened Wrappers
  import opened Vectors

  /** `ELEMENTS_WEIGHTS[key]` (calculate_rmsd.py:41-69): the atomic mass
      stored under a lower-case element symbol, None where the dictionary
      has no such key.  Every stored mass is positive. */
  function ElementsWeights(key: string): (r: Option<real>)
    ensures r.Some? ==> r.value > 0.0
  {
    match key
    case "h" => Some(1.008)
    case "he" => Some(4.003)
    case "li" => Some(6.941)
    case "be" => Some(9.012)
    case "b" => Some(10.811)
    case "c" => Some(12.011)
    case "n" => Some(14.007)
    case "o" => Some(15.999)
    case "f" => Some(18.998)
    case "ne" => Some(20.180)
    case "na" => Some(22.990)
    case "mg" => Some(24.305)
    case "al" => Some(26.982)
    case "si" => Some(28.086)
    case "p" => Some(30.974)
    case "s" => Some(32.066)
    case "cl" => Some(35.453)
    case "ar" => Some(39.948)
    case "k" => Some(39.098)
    case "ca" => Some(40.078)
    case "sc" => Some(44.956)
    case "ti" => Some(47.867)
    case "v" => Some(50.942)
    case "cr" => Some(51.996)
    case "mn" => Some(54.938)
    case "fe" => Some(55.845)
    case "co" => Some(58.933)
    case "ni" => Some(58.693)
    case "cu" => Some(63.546)
    case "zn" => Some(65.38)
    case "ga" => Some(69.723)
    case "ge" => Some(72.631)
    case "as" => Some(74.922)
    case "se" => Some(78.971)
    case "br" => Some(79.904)
    case "kr" => Some(84.798)
    case "rb" => Some(84.468)
    case "sr" => Some(87.62)
    case "y" => Some(88.906)
    case "zr" => Some(91.224)
    case "nb" => Some(92.906)
    case "mo" => Some(95.95)
    case "tc" => Some(98.907)
    case "ru" => Some(101.07)
    case "rh" => Some(102.906)
    case "pd" => Some(106.42)
    case "ag" => Some(107.868)
    case "cd" => Some(112.414)
    case "in" => Some(114.818)
    case "sn" => Some(118.711)
    case "sb" => Some(121.760)
    case "te" => Some(126.7)
    case "i" => Some(126.904)
    case "xe" => Some(131.294)
    case "cs" => Some(132.905)
    case "ba" => Some(137.328)
    case "la" => Some(138.905)
    case "ce" => Some(140.116)
    case "pr" => Some(140.908)
    case "nd" => Some(144.243)
    case "pm" => Some(144.913)
    case "sm" => Some(150.36)
    case "eu" => Some(151.964)
    case "gd" => Some(157.25)
    case "tb" => Some(158.925)
    case "dy" => Some(162.500)
    case "ho" => Some(164.930)
    case "er" => Some(167.259)
    case "tm" => Some(168.934)
    case "yb" => Some(173.055)
    case "lu" => Some(174.967)
    case "hf" => Some(178.49)
    case "ta" => Some(180.948)
    case "w" => Some(183.84)
    case "re" => Some(186.207)
    case "os" => Some(190.23)
    case "ir" => Some(192.217)
    case "pt" => Some(195.085)
    case "au" => Some(196.967)
    case "hg" => Some(200.592)
    case "tl" => Some(204.383)
    case "pb" => Some(207.2)
    case "bi" => Some(208.980)
    case "po" => Some(208.982)
    case "at" => Some(209.987)
    case "rn" => Some(222.081)
    case "fr" => Some(223.020)
    case "ra" => Some(226.025)
    case "ac" => Some(227.028)
    case "th" => Some(232.038)
    case "pa" => Some(231.036)
    case "u" => Some(238.029)
    case "np" => Some(237.0)
    case "pu" => Some(244.0)
    case "am" => Some(243.0)
    case "cm" => Some(247.0)
    case "bk" => Some(247.0)
    case "ct" => Some(251.0)
    case "es" => Some(252.0)
    case "fm" => Some(257.0)
    case "md" => Some(258.0)
    case "no" => Some(259.0)
    case "lr" => Some(262.0)
    case "rf" => Some(261.0)
    case "db" => Some(262.0)
    case "sg" => Some(266.0)
    case "bh" => Some(264.0)
    case "hs" => Some(269.0)
    case "mt" => Some(268.0)
    case "ds" => Some(271.0)
    case "rg" => Some(272.0)
    case "cn" => Some(285.0)
    case "nh" => Some(284.0)
    case "fl" => Some(289.0)
    case "mc" => Some(288.0)
    case "lv" => Some(292.0)
    case "ts" => Some(294.0)
    case "og" => Some(294.0)
    case _ => None
  }

  /** `str.lower` as far as the table's keys can tell: ASCII capitals
      become small letters, and so does the Kelvin sign U+212A, the one
      other character Python lower-cases to ASCII (to 'k').  Every other
      character is kept; Python's lower case of it is not pure ASCII, so no
      key matches it either way. */
  function LowerChar(c: char): (r: char)
    ensures 'A' <= c <= 'Z' ==> r as int == c as int + 32
    ensures c == '\U{212A}' ==> r == 'k'
    ensures !('A' <= c <= 'Z') && c != '\U{212A}' ==> r == c
  {
    if 'A' <= c <= 'Z' then (c as int + 32) as char
    else if c == '\U{212A}' then 'k'
    else c
  }

  /** A potassium label written with the Kelvin sign finds potassium's
      mass, as it does in Python. */
  lemma KelvinSignIsPotassium()
    ensures Known("\U{212A}") && Mass("\U{212A}") == Mass("K")
  {
    assert Lower("\U{212A}") == "k";
    assert Lower("K") == "k";
  }

  function Lower(s: string): (r: string)
    ensures |r| == |s|
    ensures forall i :: 0 <= i < |s| ==> r[i] == LowerChar(s[i])
  {
    if s == [] then [] else [LowerChar(s[0])] + Lower(s[1..])
  }

  datatype GeometryError = UnknownElement(atom: string) | ShapeMismatch | ZeroWeights

  /** The mass of an atom label: the table lookup after lower-casing. */
  predicate Known(atom: string) {
    ElementsWeights(Lower(atom)).Some?
  }

  /** The mass of a known label. */
  function Mass(atom: string): (r: real)
    requires Known(atom)
    ensures r > 0.0
  {
    ElementsWeights(Lower(atom)).value
  }

  /** `[ELEMENTS_WEIGHTS[x.lower()] for x in atoms]`: the masses in order,
      or the first label the table does not know. */
  function Masses(atoms: seq<string>): (r: Result<seq<real>, GeometryError>)
    ensures r.Success? <==> forall i :: 0 <= i < |atoms| ==> Known(atoms[i])
    ensures r.Success? ==>
              |r.value| == |atoms| && forall i :: 0 <= i < |atoms| ==> r.value[i] == Mass(atoms[i])
    ensures r.Failure? ==>
              exists k :: 0 <= k < |atoms| && !Known(atoms[k]) && r.error == UnknownElement(atoms[k]) &&
                          forall i :: 0 <= i < k ==> Known(atoms[i])
  {
    if atoms == [] then Success([])
    else if !Known(atoms[0]) then Failure(UnknownElement(atoms[0]))
    else
      var rest := Masses(atoms[1..]);
      if rest.Failure? then rest
      else Success([Mass(atoms[0])] + rest.value)
  }

  /** The sum of the first k weights. */
  function Total(ms: seq<real>, k: nat): real
    requires k <= |ms|
  {
    if k == 0 then 0.0 else Total(ms, k - 1) + ms[k - 1]
  }

  /** The weighted sum of the first k vectors. */
  function Moment(ms: seq<real>, v: seq<Vec3>, k: nat): Vec3
    requires k <= |ms| && k <= |v|
  {
    if k == 0 then Zero else Add(Moment(ms, v, k - 1), Scale(ms[k - 1], v[k - 1]))
  }

  /** `get_cm`: `np.average` of the coordinates weighted by the masses.
      It raises on an unknown label, on a weight list of the wrong length
      and on weights that sum to zero. */
  function CenterOfMass(atoms: seq<string>, v: seq<Vec3>): (r: Result<Vec3, GeometryError>)
    ensures r.Success? <==> Masses(atoms).Success? && |atoms| == |v| && |v| > 0
  {
    var ms := Masses(atoms);
    if ms.Failure? then Failure(ms.error)
    else if |ms.value| != |v| then Failure(ShapeMismatch)
    else
      TotalPositive(ms.value, |v|);
      var total := Total(ms.value, |v|);
      if total == 0.0 then Failure(ZeroWeights)
      else Success(Scale(1.0 / total, Moment(ms.value, v, |v|)))
  }

  lemma {:induction false} TotalPositive(ms: seq<real>, k: nat)
    requires k <= |ms| && forall i :: 0 <= i < |ms| ==> ms[i] > 0.0
    ensures k > 0 ==> Total(ms, k) > 0.0
    ensures Total(ms, k) >= 0.0
  {
    if k > 0 {
      TotalPositive(ms, k - 1);
    }
  }

  /** `V - get_cm(atoms, V)`. */
  function Centered(v: seq<Vec3>, c: Vec3): (r: seq<Vec3>)
    ensures |r| == |v|
    ensures forall i :: 0 <= i < |v| ==> r[i] == Sub(v[i], c)
  {
    seq(|v|, i requires 0 <= i < |v| => Sub(v[i], c))
  }

  /** Moving every point by c moves the weighted sum by the total times c. */
  lemma {:induction false} MomentShift(ms: seq<real>, v: seq<Vec3>, c: Vec3, k: nat)
    requires k <= |ms| && k <= |v|
    ensures Moment(ms, Centered(v, c), k) == Sub(Moment(ms, v, k), Scale(Total(ms, k), c))
  {
    if k > 0 {
      MomentShift(ms, v, c, k - 1);
      ShiftStep(Moment(ms, v, k - 1), Total(ms, k - 1), ms[k - 1], v[k - 1], c);
    }
  }

  lemma ShiftStep(a: Vec3, t: real, m: real, w: Vec3, c: Vec3)
    ensures Add(Sub(a, Scale(t, c)), Scale(m, Sub(w, c))) == Sub(Add(a, Scale(m, w)), Scale(t + m, c))
  {
    assert (t + m) * c.x == t * c.x + m * c.x && m * (w.x - c.x) == m * w.x - m * c.x;
    assert (t + m) * c.y == t * c.y + m * c.y && m * (w.y - c.y) == m * w.y - m * c.y;
    assert (t + m) * c.z == t * c.z + m * c.z && m * (w.z - c.z) == m * w.z - m * c.z;
  }

  /** The coordinates taken about the centre of mass balance: their
      mass-weighted sum is zero. */
  lemma CenteredBalanced(atoms: seq<string>, v: seq<Vec3>)
    requires CenterOfMass(atoms, v).Success?
    ensures Moment(Masses(atoms).value, Centered(v, CenterOfMass(atoms, v).value), |v|) == Zero
  {
    var ms := Masses(atoms).value;
    var c := CenterOfMass(atoms, v).value;
    var total := Total(ms, |v|);
    var m := Moment(ms, v, |v|);
    MomentShift(ms, v, c, |v|);
    assert c == Scale(1.0 / total, m);
    ScaleInverse(total, m);
  }

  lemma ScaleInverse(t: real, m: Vec3)
    requires t != 0.0
    ensures Scale(t, Scale(1.0 / t, m)) == m
  {
    assert t * (1.0 / t) == 1.0;
    assert t * ((1.0 / t) * m.x) == (t * (1.0 / t)) * m.x;
    assert t * ((1.0 / t) * m.y) == (t * (1.0 / t)) * m.y;
    assert t * ((1.0 / t) * m.z) == (t * (1.0 / t)) * m.z;
  }

  // ---------------------------------------------------------------------
  // The tensor of inertia.

  /** The six accumulated quantities. */
  datatype Component = XX | YY | ZZ | XY | XZ | YZ

  /** One atom's contribution, per unit mass. */
  function Term(t: Component, a: Vec3): real {
    match t
    case XX => a.y * a.y + a.z * a.z
    case YY => a.x * a.x + a.z * a.z
    case ZZ => a.x * a.x + a.y * a.y
    case XY => -(a.x * a.y)
    case XZ => -(a.x * a.z)
    case YZ => -(a.y * a.z)
  }

  /** The accumulator for component t after the first k atoms. */
  function Accumulated(ms: seq<real>, cv: seq<Vec3>, t: Component, k: nat): real
    requires k <= |ms| && k <= |cv|
  {
    if k == 0 then 0.0 else Accumulated(ms, cv, t, k - 1) + ms[k - 1] * Term(t, cv[k - 1])
  }

  /** The source's update expressions are mass times the term. */
  lemma TermForms(m: real, a: Vec3)
    ensures m * (a.y * a.y + a.z * a.z) == m * Term(XX, a)
    ensures m * (a.x * a.x + a.z * a.z) == m * Term(YY, a)
    ensures m * (a.x * a.x + a.y * a.y) == m * Term(ZZ, a)
    ensures -m * a.x * a.y == m * Term(XY, a)
    ensures -m * a.x * a.z == m * Term(XZ, a)
    ensures -m * a.y * a.z == m * Term(YZ, a)
  {
  }

  /** One more atom, in the source's update expressions. */
  lemma AccumulateStep(ms: seq<real>, cv: seq<Vec3>, i: nat, m: real, a: Vec3)
    requires i < |ms| && i < |cv| && m == ms[i] && a == cv[i]
    ensures Accumulated(ms, cv, XX, i + 1) == Accumulated(ms, cv, XX, i) + m * (a.y * a.y + a.z * a.z)
    ensures Accumulated(ms, cv, YY, i + 1) == Accumulated(ms, cv, YY, i) + m * (a.x * a.x + a.z * a.z)
    ensures Accumulated(ms, cv, ZZ, i + 1) == Accumulated(ms, cv, ZZ, i) + m * (a.x * a.x + a.y * a.y)
    ensures Accumulated(ms, cv, XY, i + 1) == Accumulated(ms, cv, XY, i) + -m * a.x * a.y
    ensures Accumulated(ms, cv, XZ, i + 1) == Accumulated(ms, cv, XZ, i) + -m * a.x * a.z
    ensures Accumulated(ms, cv, YZ, i + 1) == Accumulated(ms, cv, YZ, i) + -m * a.y * a.z
  {
    TermForms(m, a);
  }

  /** The tensor, rows [[Ixx, Ixy, Ixz], [Ixy, Iyy, Iyz], [Ixz, Iyz, Izz]]. */
  function Tensor(ms: seq<real>, cv: seq<Vec3>): seq<seq<real>>
    requires |ms| == |cv|
  {
    var n := |cv|;
    [[Accumulated(ms, cv, XX, n), Accumulated(ms, cv, XY, n), Accumulated(ms, cv, XZ, n)],
     [Accumulated(ms, cv, XY, n), Accumulated(ms, cv, YY, n), Accumulated(ms, cv, YZ, n)],
     [Accumulated(ms, cv, XZ, n), Accumulated(ms, cv, YZ, n), Accumulated(ms, cv, ZZ, n)]]
  }

  /** `get_inertia_tensor`: the centre of mass first (its errors are the
      method's), then one pass over the atoms updating six accumulators. */
  method GetInertiaTensor(atoms: seq<string>, v: seq<Vec3>) returns (res: Result<seq<seq<real>>, GeometryError>)
    ensures res.Success? <==> CenterOfMass(atoms, v).Success?
    ensures res.Failure? ==> res.error == CenterOfMass(atoms, v).error
    ensures res.Success? ==>
              res.value == Tensor(Masses(atoms).value, Centered(v, CenterOfMass(atoms, v).value))
  {
    var cm := CenterOfMass(atoms, v);
    if cm.Failure? {
      return Failure(cm.error);
    }
    var cv := Centered(v, cm.value);
    ghost var ms := Masses(atoms).value;
    assert |ms| == |atoms| == |cv|;
    var ixx, iyy, izz, ixy, ixz, iyz := 0.0, 0.0, 0.0, 0.0, 0.0, 0.0;
    for i := 0 to |atoms|
      invariant ixx == Accumulated(ms, cv, XX, i) && iyy == Accumulated(ms, cv, YY, i)
      invariant izz == Accumulated(ms, cv, ZZ, i) && ixy == Accumulated(ms, cv, XY, i)
      invariant ixz == Accumulated(ms, cv, XZ, i) && iyz == Accumulated(ms, cv, YZ, i)
    {
      var amass := ElementsWeights(Lower(atoms[i])).value;
      assert amass == ms[i];
      var a := cv[i];
      AccumulateStep(ms, cv, i, amass, a);
      ixx := ixx + amass * (a.y * a.y + a.z * a.z);
      iyy := iyy + amass * (a.x * a.x + a.z * a.z);
      izz := izz + amass * (a.x * a.x + a.y * a.y);
      ixy := ixy + -amass * a.x * a.y;
      ixz := ixz + -amass * a.x * a.z;
      iyz := iyz + -amass * a.y * a.z;
    }
    return Success([[ixx, ixy, ixz], [ixy, iyy, iyz], [ixz, iyz, izz]]);
  }

  /** The tensor is symmetric. */
  lemma TensorSymmetric(ms: seq<real>, cv: seq<Vec3>, i: nat, j: nat)
    requires |ms| == |cv| && i < 3 && j < 3
    ensures |Tensor(ms, cv)| == 3 && |Tensor(ms, cv)[i]| == 3 && |Tensor(ms, cv)[j]| == 3
    ensures Tensor(ms, cv)[i][j] == Tensor(ms, cv)[j][i]
  {
  }

  /** With non-negative masses the diagonal accumulators never go below
      zero. */
  lemma {:induction false} DiagonalNonNegative(ms: seq<real>, cv: seq<Vec3>, t: Component, k: nat)
    requires k <= |ms| && k <= |cv| && (t == XX || t == YY || t == ZZ)
    requires forall i :: 0 <= i < |ms| ==> ms[i] >= 0.0
    ensures Accumulated(ms, cv, t, k) >= 0.0
  {
    if k > 0 {
      DiagonalNonNegative(ms, cv, t, k - 1);
      var m, a := ms[k - 1], cv[k - 1];
      assert Term(t, a) >= 0.0;
      assert m * Term(t, a) >= 0.0;
    }
  }

  /** The principal moments obey the triangle inequality: no diagonal entry
      exceeds the sum of the other two. */
  lemma {:induction false} DiagonalTriangle(ms: seq<real>, cv: seq<Vec3>, k: nat)
    requires k <= |ms| && k <= |cv|
    requires forall i :: 0 <= i < |ms| ==> ms[i] >= 0.0
    ensures Accumulated(ms, cv, ZZ, k) <= Accumulated(ms, cv, XX, k) + Accumulated(ms, cv, YY, k)
    ensures Accumulated(ms, cv, XX, k) <= Accumulated(ms, cv, YY, k) + Accumulated(ms, cv, ZZ, k)
    ensures Accumulated(ms, cv, YY, k) <= Accumulated(ms, cv, XX, k) + Accumulated(ms, cv, ZZ, k)
  {
    if k > 0 {
      DiagonalTriangle(ms, cv, k - 1);
      var m, a := ms[k - 1], cv[k - 1];
      assert m * (a.x * a.x) >= 0.0 && m * (a.y * a.y) >= 0.0 && m * (a.z * a.z) >= 0.0;
      assert m * Term(XX, a) == m * (a.y * a.y) + m * (a.z * a.z);
      assert m * Term(YY, a) == m * (a.x * a.x) + m * (a.z * a.z);
      assert m * Term(ZZ, a) == m * (a.x * a.x) + m * (a.y * a.y);
    }
  }

  /** What `get_inertia_tensor` returns: a symmetric 3x3 matrix whose
      diagonal is non-negative and obeys the triangle inequality, the
      tabulated masses being positive. */
  lemma InertiaTensorShape(atoms: seq<string>, v: seq<Vec3>)
    requires CenterOfMass(atoms, v).Success?
    ensures var t := Tensor(Masses(atoms).value, Centered(v, CenterOfMass(atoms, v).value));
            |t| == 3 && (forall i :: 0 <= i < 3 ==> |t[i]| == 3) &&
            (forall i, j :: 0 <= i < 3 && 0 <= j < 3 ==> t[i][j] == t[j][i]) &&
            (forall i :: 0 <= i < 3 ==> t[i][i] >= 0.0) &&
            t[2][2] <= t[0][0] + t[1][1] && t[0][0] <= t[1][1] + t[2][2] && t[1][1] <= t[0][0] + t[2][2]
  {
    var ms := Masses(atoms).value;
    var cv := Centered(v, CenterOfMass(atoms, v).value);
    TensorShape(ms, cv);
  }

  lemma TensorShape(ms: seq<real>, cv: seq<Vec3>)
    requires |ms| == |cv|
    requires forall i :: 0 <= i < |ms| ==> ms[i] >= 0.0
    ensures var t := Tensor(ms, cv);
            |t| == 3 && (forall i :: 0 <= i < 3 ==> |t[i]| == 3) &&
            (forall i, j :: 0 <= i < 3 && 0 <= j < 3 ==> t[i][j] == t[j][i]) &&
            (forall i :: 0 <= i < 3 ==> t[i][i] >= 0.0) &&
            t[2][2] <= t[0][0] + t[1][1] && t[0][0] <= t[1][1] + t[2][2] && t[1][1] <= t[0][0] + t[2][2]
  {
    DiagonalNonNegative(ms, cv, XX, |cv|);
    DiagonalNonNegative(ms, cv, YY, |cv|);
    DiagonalNonNegative(ms, cv, ZZ, |cv|);
    DiagonalTriangle(ms, cv, |cv|);
  }
}
