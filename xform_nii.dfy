// xform_nii (src/utils/Nifti_viewer/xform_nii.js): the orientation
// bookkeeping load_nii applies to a freshly loaded NIfTI image. It covers
// the scaling branches, change_hdr's choice between sform and qform, the
// quaternion check, the unit handling, and the reordering of dim, pixdim,
// originator and the image along rot_orient and flip_orient. The matrix
// helpers sumMatrix, constructHomogeneousMatrix and multiplyMatrix are here
// as well, and get_orient with its indexArray helper, as written. The
// floating-point construction of the 3-by-3 R of lines 371-519 and the
// affine arithmetic of lines 530-552 are not part of this model: R is a
// parameter, and inv(R) is the Gauss-Jordan inverse of MatlabInverse.

module XformNii {
  import opened JsValues
  import opened Matlab
  import MatlabPermute
  import MatlabMatrix
  import MatlabInverse
  import NiftiHeader

  // ----- numbers that may have become NaN or undefined -----

  /**
   * A header number after change_hdr: a real, NaN, or undefined (what
   * indexing into a plain number yields).
   */
  datatype Number = Real(x: real) | NaN | Absent

  /** `a * b`; undefined converts to NaN. */
  function Times(a: Number, b: Number): Number
  {
    if a.Real? && b.Real? then Real(a.x * b.x) else NaN
  }

  /** `Math.abs(a)`. */
  function Abs(a: Number): Number
  {
    match a
    case Real(x) => Real(if x < 0.0 then -x else x)
    case _ => NaN
  }

  /** An array of numbers where a number is expected: through its text, [] is 0, [u] is u and a longer array NaN. */
  function ArrayAsNumber(xs: seq<real>): Number
  {
    if xs == [] then Real(0.0) else if |xs| == 1 then Real(xs[0]) else NaN
  }

  function Reals(xs: seq<real>): (r: seq<Number>)
    ensures |r| == |xs| && forall i :: 0 <= i < |xs| ==> r[i] == Real(xs[i])
  {
    seq(|xs|, i requires 0 <= i < |xs| => Real(xs[i]))
  }

  function Ints(xs: seq<int>): (r: seq<Number>)
    ensures |r| == |xs| && forall i :: 0 <= i < |xs| ==> r[i] == Real(xs[i] as real)
  {
    seq(|xs|, i requires 0 <= i < |xs| => Real(xs[i] as real))
  }

  // ----- sform or qform -----

  datatype Form = SForm | QForm | NoForm

  const SformMissing := "User requires sform, sform not set in header"
  const QformMissing := "User requires qform, qform not set in header"
  const BadQuaternion := "Incorrect quaternion values in this NIFTI data."

  /**
   * The transform change_hdr applies. "S" and "Q" demand a form and throw
   * when sform_code is 0 (for "Q" too, as written); "s" and "q" prefer one
   * form and fall back to the other; any other preference uses none.
   */
  function UseForm(preferred: string, sformCode: int, qformCode: int): (r: Outcome<Form>)
    ensures r.Err? <==> (preferred == "S" || preferred == "Q") && sformCode == 0
    ensures r.Ok? && r.value == NoForm ==> preferred != "S" && preferred != "Q"
  {
    if preferred == "S" then
      if sformCode == 0 then Err(Thrown(SformMissing)) else Ok(SForm)
    else if preferred == "Q" then
      if sformCode == 0 then Err(Thrown(QformMissing)) else Ok(QForm)
    else if preferred == "s" then
      if sformCode > 0 then Ok(SForm) else if qformCode > 0 then Ok(QForm) else Ok(NoForm)
    else if preferred == "q" then
      if qformCode > 0 then Ok(QForm) else if sformCode > 0 then Ok(SForm) else Ok(NoForm)
    else Ok(NoForm)
  }

  /**
   * "s" uses the sform exactly when sform_code is positive, "q" the qform
   * exactly when qform_code is positive; each falls back to the other form,
   * neither fails, and both use no form when neither code is positive. With
   * only one form set the preference does not matter.
   */
  lemma LowerCasePreference(sformCode: int, qformCode: int)
    ensures UseForm("s", sformCode, qformCode).Ok? && UseForm("q", sformCode, qformCode).Ok?
    ensures UseForm("s", sformCode, qformCode).value == SForm <==> sformCode > 0
    ensures UseForm("q", sformCode, qformCode).value == QForm <==> qformCode > 0
    ensures UseForm("s", sformCode, qformCode).value == NoForm <==> sformCode <= 0 && qformCode <= 0
    ensures UseForm("q", sformCode, qformCode).value == NoForm <==> sformCode <= 0 && qformCode <= 0
    ensures (sformCode > 0) != (qformCode > 0) ==>
      UseForm("s", sformCode, qformCode) == UseForm("q", sformCode, qformCode)
  {
  }

  /**
   * "Q" as written: it throws the qform message when sform_code is 0 even
   * if a qform is set, and picks the qform when sform_code is set even if
   * qform_code is 0. "S" throws exactly when sform_code is 0.
   */
  lemma UpperCaseTestsSform(sformCode: int, qformCode: int)
    ensures sformCode == 0 ==> UseForm("Q", sformCode, qformCode) == Err(Thrown(QformMissing))
    ensures sformCode != 0 ==> UseForm("Q", sformCode, qformCode) == Ok(QForm)
    ensures UseForm("S", sformCode, qformCode) ==
      if sformCode == 0 then Err(Thrown(SformMissing)) else Ok(SForm)
  {
  }

  // ----- the quaternion -----

  /**
   * The number under the square root that gives the quaternion's first
   * component a: with r = 1 - (b² + c² + d²), r itself when it is not
   * negative, 0 when it is negative by less than 1e-5, and otherwise the
   * quaternion is rejected.
   */
  function QuaternionRadicand(b: real, c: real, d: real): (r: Outcome<real>)
    ensures r.Ok? ==> r.value >= 0.0
  {
    var s := 1.0 - (b * b + c * c + d * d);
    if s < 0.0 then
      if -s < 0.00001 then Ok(0.0) else Err(Thrown(BadQuaternion))
    else Ok(s)
  }

  /**
   * The quaternion is accepted exactly when b² + c² + d² < 1 + 1e-5, and
   * then a² + b² + c² + d² lies in [1, 1 + 1e-5): a unit quaternion up to
   * the tolerance, and exactly one when b² + c² + d² <= 1.
   */
  lemma QuaternionNorm(b: real, c: real, d: real)
    ensures QuaternionRadicand(b, c, d).Ok? <==> b * b + c * c + d * d < 1.00001
    ensures QuaternionRadicand(b, c, d).Ok? ==>
      1.0 <= QuaternionRadicand(b, c, d).value + (b * b + c * c + d * d) < 1.00001
    ensures b * b + c * c + d * d <= 1.0 ==>
      QuaternionRadicand(b, c, d).value + (b * b + c * c + d * d) == 1.0
  {
  }

  /** `qfac`: pixdim[0], with 0 read as 1. */
  function Qfac(pixdim0: real): (q: real)
    ensures q != 0.0
    ensures pixdim0 != 0.0 ==> q == pixdim0
  {
    if pixdim0 == 0.0 then 1.0 else pixdim0
  }

  /** The voxel scales i, j, k of the qform branch: pixdim[1], pixdim[2] and qfac * pixdim[3]. */
  function QformScales(pixdim: seq<real>): (s: seq<real>)
    requires |pixdim| >= 4
    ensures |s| == 3
  {
    [pixdim[1], pixdim[2], Qfac(pixdim[0]) * pixdim[3]]
  }

  /**
   * For the qfac values NIfTI-1 allows (1 and -1, with 0 read as 1), i and
   * j are pixdim[1] and pixdim[2], and k is pixdim[3], negated exactly when
   * qfac is -1.
   */
  lemma QfacSign(pixdim: seq<real>)
    requires |pixdim| >= 4 && pixdim[0] in {-1.0, 0.0, 1.0}
    ensures QformScales(pixdim)[..2] == pixdim[1..3]
    ensures QformScales(pixdim)[2] == if pixdim[0] < 0.0 then -pixdim[3] else pixdim[3]
  {
  }

  // ----- units -----

  /** `xyzt_units & 7`: 1 (metre) gives 1000, 3 (micrometre) gives 0.001, anything else 1 (millimetre). */
  function SpaceUnit(xyztUnits: int): real
  {
    var code := MatlabMatrix.Bits(xyztUnits) & 7;
    if code == 1 then 1000.0 else if code == 3 then 0.001 else 1.0
  }

  /** `xyzt_units & 56`: 16 (millisecond) gives 1e-3, 24 (microsecond) gives 1e-6, anything else 1 (second). */
  function TimeUnit(xyztUnits: int): real
  {
    var code := MatlabMatrix.Bits(xyztUnits) & 56;
    if code == 16 then 0.001 else if code == 24 then 0.000001 else 1.0
  }

  /** `get_units(hdr)`: the pair [space_unit, time_unit]. */
  function GetUnits(xyztUnits: int): (units: seq<real>)
    ensures |units| == 2
    ensures units[0] in {1000.0, 0.001, 1.0} && units[1] in {0.001, 0.000001, 1.0}
  {
    [SpaceUnit(xyztUnits), TimeUnit(xyztUnits)]
  }

  /** The factor to millimetres of a NIfTI-1 space code: 1 metre, 2 millimetre, 3 micrometre, 0 unknown. */
  function SpaceFactor(space: nat): real
    requires space < 4
  {
    if space == 1 then 1000.0 else if space == 3 then 0.001 else 1.0
  }

  /** The factor to seconds of a NIfTI-1 time code divided by 8: 1 second, 2 millisecond, 3 microsecond, 0 unknown. */
  function TimeFactor(time: nat): real
    requires time < 4
  {
    if time == 2 then 0.001 else if time == 3 then 0.000001 else 1.0
  }

  /**
   * For xyzt_units = space + 8 * time, the code NIfTI-1 stores, get_units
   * reads the space factor from the first code and the time factor from the
   * second, each independently of the other.
   */
  lemma UnitCodes(space: nat, time: nat)
    requires space < 4 && time < 4
    ensures GetUnits(space + 8 * time) == [SpaceFactor(space), TimeFactor(time)]
  {
    var x := space + 8 * time;
    assert MatlabMatrix.Bits(x) == x as bv32;
    if space == 0 && time == 0 {
    } else if space == 0 && time == 1 {
    } else if space == 0 && time == 2 {
    } else if space == 0 && time == 3 {
    } else if space == 1 && time == 0 {
    } else if space == 1 && time == 1 {
    } else if space == 1 && time == 2 {
    } else if space == 1 && time == 3 {
    } else if space == 2 && time == 0 {
    } else if space == 2 && time == 1 {
    } else if space == 2 && time == 2 {
    } else if space == 2 && time == 3 {
    } else if space == 3 && time == 0 {
    } else if space == 3 && time == 1 {
    } else if space == 3 && time == 2 {
    } else {
    }
  }

  /**
   * `space_unit != 1` with space_unit the pair get_units returns: the pair
   * reads as NaN, so the test always holds and pixdim[1..3] are always
   * multiplied by NaN.
   */
  lemma UnitsPairIsNaN(xyztUnits: int)
    ensures ArrayAsNumber(GetUnits(xyztUnits)) == NaN
    ensures forall p :: Times(p, ArrayAsNumber(GetUnits(xyztUnits))) == NaN
  {
  }

  /** `String.fromCharCode(n)`: the UTF-16 code unit n mod 2^16. */
  function CharCode(n: int): int
  {
    n % 0x1_0000
  }

  /**
   * A one-character string used as a bitset operand, as int32: a digit
   * gives its value; a blank gives 0, and any other character NaN, which
   * also becomes 0.
   */
  function CharAsInt(code: int): (r: int)
    ensures 0 <= r <= 9
  {
    if 48 <= code <= 57 then code - 48 else 0
  }

  /**
   * The code of the one-character string xyzt_units becomes: bitset with
   * bit 1 cleared, bit 2 set and bit 3 cleared, each result turned into a
   * character by String.fromCharCode before the next bitset reads it.
   */
  function RescaledUnits(xyztUnits: int): int
  {
    var c1 := CharCode(MatlabMatrix.Bitset(xyztUnits, 1, 0));
    var c2 := CharCode(MatlabMatrix.Bitset(CharAsInt(c1), 2, 1));
    CharCode(MatlabMatrix.Bitset(CharAsInt(c2), 3, 0))
  }

  /**
   * Whatever xyzt_units was, it ends as the NUL character: the middle step
   * yields a control character (codes 4 to 13), which reads as 0. Its units
   * then read as millimetre and second.
   */
  lemma UnitsBecomeNul(xyztUnits: int)
    ensures RescaledUnits(xyztUnits) == 0
    ensures GetUnits(RescaledUnits(xyztUnits)) == [1.0, 1.0]
  {
    var v := CharAsInt(CharCode(MatlabMatrix.Bitset(xyztUnits, 1, 0)));
    RescaleFromDigit(v);
    NulUnits();
  }

  lemma RescaleFromDigit(v: int)
    requires 0 <= v <= 9
    ensures CharCode(MatlabMatrix.Bitset(CharAsInt(CharCode(MatlabMatrix.Bitset(v, 2, 1))), 3, 0)) == 0
  {
    SetBitTwo(v);
    var b := MatlabMatrix.Bitset(v, 2, 1);
    SmallCharCode(b);
    assert CharAsInt(b) == 0;
    NulUnits();
  }

  /** A code below 2^16 is its own character code. */
  lemma SmallCharCode(n: int)
    requires 0 <= n < 0x1_0000
    ensures CharCode(n) == n
  {
  }

  /** Setting bit 2 of a digit value gives a code from 4 to 13. */
  lemma SetBitTwo(v: int)
    requires 0 <= v <= 9
    ensures 4 <= MatlabMatrix.Bitset(v, 2, 1) <= 13
  {
    var b := MatlabMatrix.Bitset(v, 2, 1);
    if v == 0 { assert b == 4; } else if v == 1 { assert b == 5; } else if v == 2 { assert b == 6; }
    else if v == 3 { assert b == 7; } else if v == 4 { assert b == 4; } else if v == 5 { assert b == 5; }
    else if v == 6 { assert b == 6; } else if v == 7 { assert b == 7; } else if v == 8 { assert b == 12; }
    else { assert b == 13; }
  }

  lemma NulUnits()
    ensures CharCode(MatlabMatrix.Bitset(0, 3, 0)) == 0
    ensures GetUnits(0) == [1.0, 1.0]
  {
    assert MatlabMatrix.Bitset(0, 3, 0) == 0;
    assert MatlabMatrix.Bits(0) == 0;
  }

  // ----- matrices -----

  /** `sumMatrix(m)`: the sum of each row, added from left to right. */
  function SumMatrix(m: seq<seq<real>>): (r: seq<real>)
    ensures |r| == |m| && forall i :: 0 <= i < |m| ==> r[i] == MatlabInverse.Sum(m[i])
  {
    seq(|m|, i requires 0 <= i < |m| => MatlabInverse.Sum(m[i]))
  }

  /**
   * On a matrix with one non-zero entry per row, as an unsheared rotation
   * has, each row sum is that entry; this is what the orthogonality test of
   * change_hdr compares against.
   */
  lemma SumOfStraightRows(m: seq<seq<real>>, cols: seq<nat>)
    requires |cols| == |m|
    requires forall i :: 0 <= i < |m| ==> cols[i] < |m[i]|
    requires forall i, j :: 0 <= i < |m| && 0 <= j < |m[i]| && j != cols[i] ==> m[i][j] == 0.0
    ensures forall i :: 0 <= i < |m| ==> SumMatrix(m)[i] == m[i][cols[i]]
  {
    forall i | 0 <= i < |m| ensures SumMatrix(m)[i] == m[i][cols[i]] {
      MatlabInverse.SumOneTerm(m[i], cols[i]);
    }
  }

  /** `constructHomogeneousMatrix(R, T)`: R's rows each extended with 0, then T extended with 1. */
  function HomogeneousMatrix(r: MatlabMatrix.Matrix, t: seq<real>): (h: MatlabMatrix.Matrix)
    requires MatlabMatrix.IsMatrix(r, 3, 3) && |t| == 3
    ensures MatlabMatrix.IsMatrix(h, 4, 4)
  {
    [r[0] + [0.0], r[1] + [0.0], r[2] + [0.0], t + [1.0]]
  }

  /** The row vector x times the n-by-n matrix m. */
  function RowTimes(x: seq<real>, m: MatlabMatrix.Matrix, n: nat): (y: seq<real>)
    requires |x| == n && MatlabMatrix.IsMatrix(m, n, n)
    ensures |y| == n
  {
    seq(n, j requires 0 <= j < n => MatlabInverse.Dot(x, MatlabInverse.Column(m, n, j)))
  }

  lemma SumSnoc(p: seq<real>, a: real)
    ensures MatlabInverse.Sum(p + [a]) == MatlabInverse.Sum(p) + a
  {
    assert (p + [a])[..|p|] == p;
  }

  /**
   * The homogeneous matrix maps a point p, written [p, 1], to p R + T with
   * the trailing 1 kept: the affine map of rotation R and translation T.
   */
  lemma HomogeneousApplies(r: MatlabMatrix.Matrix, t: seq<real>, p: seq<real>)
    requires MatlabMatrix.IsMatrix(r, 3, 3) && |t| == 3 && |p| == 3
    ensures RowTimes(p + [1.0], HomogeneousMatrix(r, t), 4) ==
      seq(3, j requires 0 <= j < 3 => RowTimes(p, r, 3)[j] + t[j]) + [1.0]
  {
    var h := HomogeneousMatrix(r, t);
    var x := p + [1.0];
    var lhs := RowTimes(x, h, 4);
    var rhs := seq(3, j requires 0 <= j < 3 => RowTimes(p, r, 3)[j] + t[j]) + [1.0];
    forall j | 0 <= j < 4 ensures lhs[j] == rhs[j] {
      var col := MatlabInverse.Column(h, 4, j);
      var prods := MatlabInverse.Products(x, col);
      assert lhs[j] == MatlabInverse.Sum(prods);
      if j < 3 {
        var short := MatlabInverse.Products(p, MatlabInverse.Column(r, 3, j));
        assert col == MatlabInverse.Column(r, 3, j) + [t[j]];
        forall k | 0 <= k < 4 ensures prods[k] == (short + [t[j]])[k] {
          if k < 3 {
            assert x[k] == p[k];
          }
        }
        assert prods == short + [t[j]];
        SumSnoc(short, t[j]);
        assert RowTimes(p, r, 3)[j] == MatlabInverse.Dot(p, MatlabInverse.Column(r, 3, j)) == MatlabInverse.Sum(short);
        assert rhs[j] == RowTimes(p, r, 3)[j] + t[j];
      } else {
        assert col == [0.0, 0.0, 0.0, 1.0];
        forall k | 0 <= k < 4 ensures prods[k] == (MatlabInverse.Products(p, [0.0, 0.0, 0.0]) + [1.0])[k] {
          if k < 3 {
            assert x[k] == p[k];
          }
        }
        assert prods == MatlabInverse.Products(p, [0.0, 0.0, 0.0]) + [1.0];
        SumSnoc(MatlabInverse.Products(p, [0.0, 0.0, 0.0]), 1.0);
        MatlabInverse.SumZero(MatlabInverse.Products(p, [0.0, 0.0, 0.0]));
      }
    }
  }

  /**
   * `multiplyMatrix(A, B)`: each entry of C accumulates A[i][k] * B[k][j]
   * for k = 0, 1, 2 from 0, so C is the matrix product.
   */
  method MultiplyMatrix(a: MatlabMatrix.Matrix, b: MatlabMatrix.Matrix) returns (c: MatlabMatrix.Matrix)
    requires MatlabMatrix.IsMatrix(a, 3, 3) && MatlabMatrix.IsMatrix(b, 3, 3)
    ensures c == MatlabInverse.Mul(a, b, 3)
  {
    ghost var product := MatlabInverse.Mul(a, b, 3);
    var acc := new real[3, 3]((i, j) => 0.0);
    for i := 0 to 3
      invariant forall i', j' :: 0 <= i' < i && 0 <= j' < 3 ==> acc[i', j'] == product[i'][j']
    {
      for j := 0 to 3
        invariant forall i', j' :: 0 <= i' < i && 0 <= j' < 3 ==> acc[i', j'] == product[i'][j']
        invariant forall j' :: 0 <= j' < j ==> acc[i, j'] == product[i][j']
      {
        acc[i, j] := EntryProduct(a, b, i, j);
      }
    }
    c := seq(3, i requires 0 <= i < 3 reads acc => seq(3, j requires 0 <= j < 3 reads acc => acc[i, j]));
    MatlabInverse.MatrixExtensionality(c, product, 3);
  }

  /**
   * The innermost loop for one entry: starting from 0, add A[i][k] * B[k][j]
   * for k = 0, 1, 2; the entry of the product.
   */
  method EntryProduct(a: MatlabMatrix.Matrix, b: MatlabMatrix.Matrix, i: nat, j: nat) returns (sum: real)
    requires MatlabMatrix.IsMatrix(a, 3, 3) && MatlabMatrix.IsMatrix(b, 3, 3) && i < 3 && j < 3
    ensures sum == MatlabInverse.Mul(a, b, 3)[i][j]
  {
    ghost var prods := MatlabInverse.Products(a[i], MatlabInverse.Column(b, 3, j));
    assert prods[..0] == [];
    sum := 0.0;
    for k := 0 to 3
      invariant sum == MatlabInverse.Sum(prods[..k])
    {
      assert prods[..k + 1][..k] == prods[..k];
      sum := sum + a[i][k] * b[k][j];
    }
    assert prods[..3] == prods;
    MatlabInverse.MulAt(a, b, 3, i, j);
  }

  /**
   * Multiplying by diag([i, j, k]), as the qform branch does, scales column
   * j of the matrix by the j-th entry.
   */
  lemma MulDiagScalesColumns(a: MatlabMatrix.Matrix, v: seq<real>)
    requires MatlabMatrix.IsMatrix(a, 3, 3) && |v| == 3
    ensures forall i, j :: 0 <= i < 3 && 0 <= j < 3 ==>
      MatlabInverse.Mul(a, MatlabMatrix.DiagMatrix(v), 3)[i][j] == a[i][j] * v[j]
  {
    var d := MatlabMatrix.DiagMatrix(v);
    forall i, j | 0 <= i < 3 && 0 <= j < 3
      ensures MatlabInverse.Mul(a, d, 3)[i][j] == a[i][j] * v[j]
    {
      MatlabInverse.MulAt(a, d, 3, i, j);
      var prods := MatlabInverse.Products(a[i], MatlabInverse.Column(d, 3, j));
      MatlabInverse.SumOneTerm(prods, j);
    }
  }

  // ----- get_orient as written -----

  /** A range argument of indexArray: ":" or one index. */
  datatype Selector = Colon | Row(i: int)

  /**
   * `indexArray(arr, range = ":", ...rest)` as written. `arr.length` is
   * read first, so null and undefined throw. `rest != []` compares two
   * distinct arrays and always holds, so every selected row goes through a
   * further call, and a value without `length` selects no row under ":".
   * A selected character of a string never ends the recursion (the stack
   * overflows); a selected row past the end is undefined, which throws.
   */
  function IndexArray(arr: Value, ranges: seq<Selector>): (r: Outcome<Value>)
    ensures r.Ok? ==> r.value.Arr?
    decreases arr, 1
  {
    if Nullish(arr) then Err(TypeError)
    else
      var range := if ranges == [] then Colon else ranges[0];
      var rest := if ranges == [] then [] else ranges[1..];
      var rows := match range
        case Row(i) => [i]
        case Colon => (match JsLength(arr) case Some(n) => Range(n) case None => []);
      var items :- IndexRows(arr, rows, rest);
      Ok(Arr(items))
  }

  /** `rowIndices.map(row => indexArray(arr[row], ...rest))`, stopped by the first exception. */
  function IndexRows(arr: Value, rows: seq<int>, rest: seq<Selector>): (r: Outcome<seq<Value>>)
    ensures r.Ok? ==> |r.value| == |rows|
    decreases arr, 0, |rows|
  {
    if rows == [] then Ok([])
    else
      var first :- if arr.Arr? && 0 <= rows[0] < |arr.items| then IndexArray(arr.items[rows[0]], rest)
                   else if arr.Str? && 0 <= rows[0] < |arr.s| then Err(RangeError)
                   else Err(TypeError);
      var others :- IndexRows(arr, rows[1..], rest);
      Ok([first] + others)
  }

  /**
   * A value where `*` expects a number. An array goes through its text:
   * [] is 0, a one-element array is its element (null and undefined
   * printing as nothing, a boolean as a word) and a longer array, whose
   * text holds a comma, is NaN. Only the empty text is read as a number.
   */
  function AsNumber(v: Value): Number
  {
    match v
    case Num(x) => Real(x)
    case Null => Real(0.0)
    case Undefined => NaN
    case Bool(b) => Real(if b then 1.0 else 0.0)
    case Str(s) => if s == "" then Real(0.0) else NaN
    case Arr(items) =>
      if |items| == 0 then Real(0.0)
      else if |items| >= 2 then NaN
      else if Nullish(items[0]) then Real(0.0)
      else if items[0].Bool? then NaN
      else AsNumber(items[0])
  }

  /** `items.reduce((acc, num) => acc * num, acc)`. */
  function ProductFrom(acc: Number, items: seq<Value>): Number
    decreases |items|
  {
    if items == [] then acc else ProductFrom(Times(acc, AsNumber(items[0])), items[1..])
  }

  /** `Math.sign(a)`. */
  function Sign(a: Number): Number
  {
    match a
    case Real(x) => Real(if x > 0.0 then 1.0 else if x < 0.0 then -1.0 else 0.0)
    case _ => NaN
  }

  /** The switch of get_orient: 1, 2 and 3 push themselves, −1, −2 and −3 push 4, 5 and 6, anything else nothing. */
  function OrientCase(n: Number): seq<int>
  {
    if n == Real(1.0) then [1] else if n == Real(2.0) then [2] else if n == Real(3.0) then [3]
    else if n == Real(-1.0) then [4] else if n == Real(-2.0) then [5] else if n == Real(-3.0) then [6]
    else []
  }

  /** `find(arr) * Math.sign(sum)` for one row selection arr, sum being the product of its items. */
  function RowCode(arr: Value): Number
    requires arr.Arr?
  {
    var found := Find(arr);
    Times(AsNumber(Arr(seq(|found|, k requires 0 <= k < |found| => Num(found[k] as real)))),
          Sign(ProductFrom(Real(1.0), arr.items)))
  }

  /** `indexArray(R, i, ":")`. */
  function SelectRow(rm: Value, i: int): (r: Outcome<Value>)
    ensures r.Ok? ==> r.value.Arr?
  {
    IndexArray(rm, [Row(i), Colon])
  }

  /** The codes get_orient has pushed after rows 0 to i − 1, or the exception of the first failing row. */
  function OrientUpTo(rm: Value, i: nat): Outcome<seq<int>>
    requires i <= 3
  {
    if i == 0 then Ok([])
    else
      var prev :- OrientUpTo(rm, i - 1);
      var arr :- SelectRow(rm, i - 1);
      Ok(prev + OrientCase(RowCode(arr)))
  }

  /** A matrix as the nested array JavaScript holds. */
  function MatrixValue(m: MatlabMatrix.Matrix): (v: Value)
    ensures v.Arr? && |v.items| == |m|
  {
    Arr(seq(|m|, i requires 0 <= i < |m| => Arr(seq(|m[i]|, j requires 0 <= j < |m[i]| => Num(m[i][j])))))
  }

  /** What `inv(R)` hands to get_orient: the inverse, or undefined for a singular R. */
  function InvValue(affine: MatlabMatrix.Matrix): Value
    requires MatlabMatrix.IsMatrix(affine, 3, 3)
  {
    match MatlabInverse.InvSpec(affine)
    case Ok(Some(m)) => MatrixValue(m)
    case _ => Undefined
  }

  /** `n` empty arrays: what indexArray makes of a row of n numbers. */
  function Empties(n: nat): seq<Value>
  {
    seq(n, _ => Arr([]))
  }

  /** Mapping in-range rows of an array of numbers, with nothing left to select, gives one [] per row. */
  lemma {:induction false} IndexNumbers(arr: Value, rows: seq<int>)
    requires arr.Arr? && forall k :: 0 <= k < |arr.items| ==> arr.items[k].Num?
    requires forall k :: 0 <= k < |rows| ==> 0 <= rows[k] < |arr.items|
    ensures IndexRows(arr, rows, []) == Ok(Empties(|rows|))
    decreases |rows|
  {
    if rows != [] {
      IndexNumbers(arr, rows[1..]);
      assert IndexArray(arr.items[rows[0]], []) == Ok(Arr([]));
      assert [Arr([])] + Empties(|rows| - 1) == Empties(|rows|);
    }
  }

  /** Row i of a matrix of at least i + 1 rows selects as [[[], ..., []]], one [] per column. */
  lemma IndexMatrixRow(m: MatlabMatrix.Matrix, i: nat)
    requires i < |m|
    ensures SelectRow(MatrixValue(m), i) == Ok(Arr([Arr(Empties(|m[i]|))]))
  {
    var mv := MatrixValue(m);
    var row := mv.items[i];
    assert row == Arr(seq(|m[i]|, j requires 0 <= j < |m[i]| => Num(m[i][j])));
    assert JsLength(row) == Some(|m[i]|);
    assert [Colon][1..] == [];
    IndexNumbers(row, Range(|m[i]|));
    assert IndexRows(row, Range(|m[i]|), []) == Ok(Empties(|m[i]|));
    assert IndexArray(row, [Colon]) == Ok(Arr(Empties(|m[i]|)));
    IndexOneRow(mv, i, [Colon]);
    assert [Row(i), Colon][1..] == [Colon];
  }

  /** Selecting one row of an array maps that row alone. */
  lemma IndexOneRow(arr: Value, i: int, rest: seq<Selector>)
    requires arr.Arr? && 0 <= i < |arr.items|
    ensures IndexRows(arr, [i], rest) ==
      match IndexArray(arr.items[i], rest) case Ok(v) => Ok([v]) case Err(e) => Err(e)
  {
    var rows := [i];
    assert rows[1..] == [] && rows[0] == i;
    assert IndexRows(arr, rows[1..], rest) == Ok([]);
    match IndexArray(arr.items[i], rest)
    case Ok(v) => assert [v] + [] == [v];
    case Err(e) =>
  }

  /** Row i of a matrix of at most i rows is undefined, and indexArray throws on it. */
  lemma IndexMissingRow(m: MatlabMatrix.Matrix, i: nat)
    requires |m| <= i
    ensures SelectRow(MatrixValue(m), i) == Err(TypeError)
  {
    var mv := MatrixValue(m);
    assert [Row(i), Colon][1..] == [Colon];
    assert IndexRows(mv, [i], [Colon]) == Err(TypeError);
  }

  /** The product of the items of [[[], ..., []]] is 0 for at most one column and NaN otherwise. */
  lemma EmptiesProduct(n: nat)
    ensures ProductFrom(Real(1.0), [Arr(Empties(n))]) == if n >= 2 then NaN else Real(0.0)
  {
    assert [Arr(Empties(n))][1..] == [];
    if n == 1 {
      assert AsNumber(Arr(Empties(1))) == AsNumber(Arr([]));
    }
  }

  /**
   * Such a selection yields no code: the sign of its product is 0 or NaN,
   * so whatever find returns, the code is 0 or NaN.
   */
  lemma EmptiesCode(n: nat)
    ensures OrientCase(RowCode(Arr([Arr(Empties(n))]))) == []
  {
    EmptiesProduct(n);
  }

  /**
   * get_orient as written never yields a code. On a matrix of three rows
   * or more every row selection is [[[], ..., []]], whose product is 0 or
   * NaN, so the code is 0 or NaN, no case of the switch matches and the
   * result is []. A matrix of fewer rows, or undefined, throws a TypeError.
   */
  lemma GetOrientAsWritten(m: MatlabMatrix.Matrix)
    ensures OrientUpTo(MatrixValue(m), 3) == if |m| >= 3 then Ok([]) else Err(TypeError)
    ensures OrientUpTo(Undefined, 3) == Err(TypeError)
  {
    var mv := MatrixValue(m);
    var none: seq<int> := [];
    for i := 0 to 3
      invariant i <= |m| ==> OrientUpTo(mv, i) == Ok(none)
      invariant i > |m| ==> OrientUpTo(mv, i) == Err(TypeError)
    {
      if i < |m| {
        OrientRowEmpty(m, i);
      } else if i == |m| {
        OrientRowMissing(m, i);
      } else {
        OrientStep(mv, i);
      }
    }
    OrientStep(Undefined, 0);
    assert OrientUpTo(Undefined, 1) == Err(TypeError);
    OrientErrorKept(Undefined, 1);
  }

  /** A row present in the matrix adds no code. */
  lemma OrientRowEmpty(m: MatlabMatrix.Matrix, i: nat)
    requires i < |m| && i < 3 && OrientUpTo(MatrixValue(m), i) == Ok([])
    ensures OrientUpTo(MatrixValue(m), i + 1) == Ok([])
  {
    OrientStep(MatrixValue(m), i);
    IndexMatrixRow(m, i);
    EmptiesCode(|m[i]|);
    var none: seq<int> := [];
    assert none + OrientCase(RowCode(Arr([Arr(Empties(|m[i]|))]))) == none;
  }

  /** The first row missing from the matrix throws. */
  lemma OrientRowMissing(m: MatlabMatrix.Matrix, i: nat)
    requires i == |m| && i < 3 && OrientUpTo(MatrixValue(m), i) == Ok([])
    ensures OrientUpTo(MatrixValue(m), i + 1) == Err(TypeError)
  {
    OrientStep(MatrixValue(m), i);
    IndexMissingRow(m, i);
  }

  /** One more row of get_orient's loop. */
  lemma OrientStep(rm: Value, i: nat)
    requires i < 3
    ensures OrientUpTo(rm, i + 1) ==
      match OrientUpTo(rm, i)
      case Err(e) => Err(e)
      case Ok(prev) => match SelectRow(rm, i) case Err(e) => Err(e) case Ok(arr) => Ok(prev + OrientCase(RowCode(arr)))
  {
  }

  /**
   * change_hdr's `get_orient(inv(R))` on a 3-by-3 R: a TypeError exactly
   * when R is singular (inv returns undefined), and [] otherwise.
   */
  lemma OrientOfInverse(affine: MatlabMatrix.Matrix)
    requires MatlabMatrix.IsMatrix(affine, 3, 3)
    ensures OrientUpTo(InvValue(affine), 3).Err? <==> MatlabInverse.Singular(affine, 3)
    ensures OrientUpTo(InvValue(affine), 3).Err? ==> OrientUpTo(InvValue(affine), 3).error == TypeError
    ensures OrientUpTo(InvValue(affine), 3).Ok? ==> OrientUpTo(InvValue(affine), 3).value == []
  {
    MatlabInverse.InvSpecCorrect(affine);
    match MatlabInverse.InvSpec(affine)
    case Ok(Some(m)) => GetOrientAsWritten(m);
    case _ => GetOrientAsWritten([]);
  }

  /**
   * change_hdr's `get_orient(inv(R))` on a 3-by-3 R: a TypeError exactly
   * when R is singular (inv returns undefined), and [] otherwise.
   */
  function AffineOrient(affine: MatlabMatrix.Matrix): (r: Outcome<seq<int>>)
    requires MatlabMatrix.IsMatrix(affine, 3, 3)
    ensures r.Err? <==> MatlabInverse.Singular(affine, 3)
    ensures r.Err? ==> r.error == TypeError
    ensures r.Ok? ==> r.value == []
  {
    OrientOfInverse(affine);
    OrientUpTo(InvValue(affine), 3)
  }

  /** Once a row has thrown, get_orient's result is that exception. */
  lemma {:induction false} OrientErrorKept(rm: Value, i: nat)
    requires i <= 3 && OrientUpTo(rm, i).Err?
    ensures OrientUpTo(rm, 3) == OrientUpTo(rm, i)
    decreases 3 - i
  {
    if i < 3 {
      OrientErrorKept(rm, i + 1);
    }
  }

  /** get_orient's loop over the three rows, pushing the code of each. */
  method GetOrient(rm: Value) returns (r: Outcome<seq<int>>)
    ensures r == OrientUpTo(rm, 3)
  {
    var orient := [];
    for i := 0 to 3
      invariant OrientUpTo(rm, i) == Ok(orient)
    {
      OrientStep(rm, i);
      var arr := SelectRow(rm, i);
      if arr.Err? {
        OrientErrorKept(rm, i + 1);
        return Err(arr.error);
      }
      orient := orient + OrientCase(RowCode(arr.value));
    }
    r := Ok(orient);
  }

  // ----- change_hdr -----

  /** The header fields change_hdr rewrites: pixdim, originator, the two form codes and xyzt_units. */
  datatype Spatial = Spatial(pixdim: seq<Number>, originator: seq<Number>, qformCode: int, sformCode: int, xyztUnits: int)

  predicate SpatialShape(s: Spatial)
  {
    |s.pixdim| == 8 && |s.originator| == 5
  }

  /** quatern_b, quatern_c, quatern_d. */
  datatype Quatern = Quatern(b: real, c: real, d: real)

  /**
   * Lines 530-552 once a form is chosen: voxel_size and the new originator
   * come out as NaN numbers (Math.abs of an array, an array times an
   * array), so their entries 0 to 2 are undefined; both codes become 0.
   */
  function Applied(s: Spatial): (t: Spatial)
    requires SpatialShape(s)
    ensures SpatialShape(t)
  {
    s.(pixdim := s.pixdim[1 := Absent][2 := Absent][3 := Absent],
       originator := s.originator[0 := Absent][1 := Absent][2 := Absent],
       qformCode := 0, sformCode := 0)
  }

  /** Lines 559-567: pixdim[1..3] multiplied by the unit, and xyzt_units rewritten through bitset. */
  function Rescaled(s: Spatial, unit: Number): (t: Spatial)
    requires SpatialShape(s)
    ensures SpatialShape(t)
  {
    s.(pixdim := s.pixdim[1 := Times(s.pixdim[1], unit)][2 := Times(s.pixdim[2], unit)][3 := Times(s.pixdim[3], unit)],
       xyztUnits := RescaledUnits(s.xyztUnits))
  }

  /** `pixdim.map(Math.abs)`. */
  function AbsAll(p: seq<Number>): (r: seq<Number>)
    ensures |r| == |p| && forall i :: 0 <= i < |p| ==> r[i] == Abs(p[i])
  {
    seq(|p|, i requires 0 <= i < |p| => Abs(p[i]))
  }

  /**
   * change_hdr on the fields it changes, and the orientation it returns.
   * `affine` stands for the 3-by-3 R the chosen form builds, whose
   * floating-point construction is not part of this model; the
   * orientation is get_orient(inv(R)) as written.
   */
  function ChangedHdr(s: Spatial, preferred: string, q: Quatern, affine: MatlabMatrix.Matrix): (r: Outcome<(Spatial, seq<int>)>)
    requires SpatialShape(s) && MatlabMatrix.IsMatrix(affine, 3, 3)
    ensures r.Ok? ==> SpatialShape(r.value.0) && (r.value.1 == [1, 2, 3] || r.value.1 == [])
  {
    var form :- UseForm(preferred, s.sformCode, s.qformCode);
    var radicand :- if form == QForm then QuaternionRadicand(q.b, q.c, q.d) else Ok(0.0);
    var orient :- if form == NoForm then Ok([1, 2, 3]) else AffineOrient(affine);
    Ok((FormApplied(s, form), orient))
  }

  /** Lines 530-570 on the header fields once the form is settled. */
  function FormApplied(s: Spatial, form: Form): (t: Spatial)
    requires SpatialShape(s)
    ensures SpatialShape(t)
  {
    var applied := if form == NoForm then s else Applied(s);
    var unit := ArrayAsNumber(GetUnits(applied.xyztUnits));
    var scaled := if unit != Real(1.0) then Rescaled(applied, unit) else applied;
    scaled.(pixdim := AbsAll(scaled.pixdim))
  }

  /**
   * change_hdr fails exactly when the form choice does, when the chosen
   * qform has a rejected quaternion, or, with a form chosen, when R is
   * singular: inv then returns undefined and get_orient throws a
   * TypeError. With no form, orient is [1, 2, 3] and the originator and
   * codes are kept; with a form, orient is the [] get_orient yields as
   * written, both codes are 0 and originator[0..2] are undefined.
   */
  lemma ChangeHdrForm(s: Spatial, preferred: string, q: Quatern, affine: MatlabMatrix.Matrix)
    requires SpatialShape(s) && MatlabMatrix.IsMatrix(affine, 3, 3)
    ensures var form := UseForm(preferred, s.sformCode, s.qformCode);
      ChangedHdr(s, preferred, q, affine).Err? <==>
        form.Err? || (form.value == QForm && QuaternionRadicand(q.b, q.c, q.d).Err?) ||
        (form.value != NoForm && MatlabInverse.Singular(affine, 3))
    ensures var form := UseForm(preferred, s.sformCode, s.qformCode);
      form.Ok? && form.value != NoForm && MatlabInverse.Singular(affine, 3) &&
      (form.value == QForm ==> QuaternionRadicand(q.b, q.c, q.d).Ok?) ==>
        ChangedHdr(s, preferred, q, affine) == Err(TypeError)
    ensures ChangedHdr(s, preferred, q, affine).Ok? ==>
      var (t, orient) := ChangedHdr(s, preferred, q, affine).value;
      var form := UseForm(preferred, s.sformCode, s.qformCode).value;
      (form == NoForm ==>
        orient == [1, 2, 3] && t.originator == s.originator &&
        t.qformCode == s.qformCode && t.sformCode == s.sformCode) &&
      (form != NoForm ==>
        orient == [] && t.qformCode == 0 && t.sformCode == 0 &&
        t.originator == [Absent, Absent, Absent] + s.originator[3..])
  {
    if ChangedHdr(s, preferred, q, affine).Ok? {
      FormAppliedFields(s, UseForm(preferred, s.sformCode, s.qformCode).value);
    }
  }

  /** The originator and the two codes after lines 530-570: kept without a form, cleared with one. */
  lemma FormAppliedFields(s: Spatial, form: Form)
    requires SpatialShape(s)
    ensures var t := FormApplied(s, form);
      (form == NoForm ==> t.originator == s.originator && t.qformCode == s.qformCode && t.sformCode == s.sformCode) &&
      (form != NoForm ==> t.qformCode == 0 && t.sformCode == 0 && t.originator == [Absent, Absent, Absent] + s.originator[3..])
  {
    var applied := if form == NoForm then s else Applied(s);
    var unit := ArrayAsNumber(GetUnits(applied.xyztUnits));
    var scaled := if unit != Real(1.0) then Rescaled(applied, unit) else applied;
    assert FormApplied(s, form) == scaled.(pixdim := AbsAll(scaled.pixdim));
    assert scaled.originator == applied.originator;
    if form != NoForm {
      var cleared := [Absent, Absent, Absent] + s.originator[3..];
      assert forall i :: 0 <= i < 5 ==> applied.originator[i] == cleared[i];
    }
  }

  /**
   * As written, a successful change_hdr always leaves pixdim[1..3] NaN
   * (the unit factor is an array), turns the other pixdim entries into
   * their magnitudes, and rewrites xyzt_units to the NUL character.
   */
  lemma ChangeHdrUnits(s: Spatial, preferred: string, q: Quatern, affine: MatlabMatrix.Matrix)
    requires SpatialShape(s) && MatlabMatrix.IsMatrix(affine, 3, 3)
    ensures ChangedHdr(s, preferred, q, affine).Ok? ==>
      var t := ChangedHdr(s, preferred, q, affine).value.0;
      t.pixdim[1] == NaN && t.pixdim[2] == NaN && t.pixdim[3] == NaN &&
      t.pixdim[0] == Abs(s.pixdim[0]) && t.pixdim[4..] == AbsAll(s.pixdim[4..]) &&
      (forall i :: 0 <= i < 8 && t.pixdim[i].Real? ==> t.pixdim[i].x >= 0.0) &&
      t.xyztUnits == 0
  {
    if ChangedHdr(s, preferred, q, affine).Ok? {
      FormAppliedUnits(s, UseForm(preferred, s.sformCode, s.qformCode).value);
    }
  }

  lemma FormAppliedUnits(s: Spatial, form: Form)
    requires SpatialShape(s)
    ensures var t := FormApplied(s, form);
      t.pixdim[1] == NaN && t.pixdim[2] == NaN && t.pixdim[3] == NaN &&
      t.pixdim[0] == Abs(s.pixdim[0]) && t.pixdim[4..] == AbsAll(s.pixdim[4..]) &&
      (forall i :: 0 <= i < 8 && t.pixdim[i].Real? ==> t.pixdim[i].x >= 0.0) &&
      t.xyztUnits == 0
  {
    var applied := if form == NoForm then s else Applied(s);
    assert applied.xyztUnits == s.xyztUnits;
    UnitsPairIsNaN(s.xyztUnits);
    UnitsBecomeNul(s.xyztUnits);
    var scaled := Rescaled(applied, ArrayAsNumber(GetUnits(s.xyztUnits)));
    assert scaled.pixdim[4..] == s.pixdim[4..];
    var t := FormApplied(s, form);
    assert t.pixdim == AbsAll(scaled.pixdim);
  }

  /** `pixdim.map(Math.abs)`, written back into the header's array. */
  method AbsInPlace(a: array<Number>)
    modifies a
    ensures a[..] == AbsAll(old(a[..]))
  {
    for i := 0 to a.Length
      invariant forall k :: 0 <= k < i ==> a[k] == Abs(old(a[k]))
      invariant forall k :: i <= k < a.Length ==> a[k] == old(a[k])
    {
      a[i] := Abs(a[i]);
    }
  }

  /**
   * change_hdr in place on the header arrays pixdim and originator; it
   * returns the new qform_code, sform_code and xyzt_units and the
   * orientation.
   */
  method ChangeHdr(pixdim: array<Number>, originator: array<Number>, qformCode: int, sformCode: int,
                   xyztUnits: int, preferred: string, q: Quatern, affine: MatlabMatrix.Matrix)
    returns (r: Outcome<(int, int, int, seq<int>)>)
    requires pixdim.Length == 8 && originator.Length == 5 && pixdim != originator
    requires MatlabMatrix.IsMatrix(affine, 3, 3)
    modifies pixdim, originator
    ensures var spec := ChangedHdr(Spatial(old(pixdim[..]), old(originator[..]), qformCode, sformCode, xyztUnits),
                                   preferred, q, affine);
      (spec.Err? ==> r == Err(spec.error)) &&
      (spec.Ok? ==>
        r.Ok? && spec.value == (Spatial(pixdim[..], originator[..], r.value.0, r.value.1, r.value.2), r.value.3))
  {
    ghost var s := Spatial(pixdim[..], originator[..], qformCode, sformCode, xyztUnits);
    var form := UseForm(preferred, sformCode, qformCode);
    if form.Err? {
      return Err(form.error);
    }
    if form.value == QForm {
      var radicand := QuaternionRadicand(q.b, q.c, q.d);
      if radicand.Err? {
        return Err(radicand.error);
      }
    }
    var orient := [1, 2, 3];
    var qcode, scode := qformCode, sformCode;
    if form.value != NoForm {
      var inverse := MatlabInverse.Inv(affine);
      var invR := if inverse.Ok? && inverse.value.Some? then MatrixValue(inverse.value.value) else Undefined;
      assert invR == InvValue(affine);
      var found := GetOrient(invR);
      if found.Err? {
        return Err(found.error);
      }
      orient := found.value;
      pixdim[1], pixdim[2], pixdim[3] := Absent, Absent, Absent;
      originator[0], originator[1], originator[2] := Absent, Absent, Absent;
      qcode, scode := 0, 0;
    }
    ghost var applied := Spatial(pixdim[..], originator[..], qcode, scode, xyztUnits);
    assert applied == if form.value == NoForm then s else Applied(s);
    var unit := ArrayAsNumber(GetUnits(xyztUnits));
    var units := xyztUnits;
    if unit != Real(1.0) {
      pixdim[1] := Times(pixdim[1], unit);
      pixdim[2] := Times(pixdim[2], unit);
      pixdim[3] := Times(pixdim[3], unit);
      units := RescaledUnits(units);
    }
    ghost var scaled := Spatial(pixdim[..], originator[..], qcode, scode, units);
    assert scaled == if unit != Real(1.0) then Rescaled(applied, unit) else applied;
    AbsInPlace(pixdim);
    r := Ok((qcode, scode, units, orient));
  }

  // ----- rot_orient and flip_orient -----

  /** get_orient yields at most three codes, each 1 to 6 (1-3 along x, y, z; 4-6 the same axes reversed). */
  predicate ValidOrient(orient: seq<int>)
  {
    |orient| <= 3 && forall i :: 0 <= i < |orient| ==> 1 <= orient[i] <= 6
  }

  /** `rot_orient[i] = (orient[i] + 2) % 3 + 1`. */
  function RotOf(o: int): int
    requires 1 <= o <= 6
  {
    (o + 2) % 3 + 1
  }

  /** `flip_orient[i] = orient[i] - rot_orient[i]`. */
  function FlipOf(o: int): int
    requires 1 <= o <= 6
  {
    o - RotOf(o)
  }

  /**
   * rot_orient names the axis an orientation code lies along (1 to 3) and
   * flip_orient is 0 for codes 1-3 and 3 for 4-6: an axis is flipped
   * exactly when its code is a reversed one.
   */
  lemma AxisAndFlip(o: int)
    requires 1 <= o <= 6
    ensures 1 <= RotOf(o) <= 3
    ensures o <= 3 ==> RotOf(o) == o && FlipOf(o) == 0
    ensures o >= 4 ==> RotOf(o) == o - 3 && FlipOf(o) == 3
    ensures FlipOf(o) != 0 <==> o >= 4
  {
  }

  function Rots(orient: seq<int>): (r: seq<int>)
    requires ValidOrient(orient)
    ensures |r| == |orient|
  {
    seq(|orient|, i requires 0 <= i < |orient| => RotOf(orient[i]))
  }

  function Flips(orient: seq<int>): (r: seq<int>)
    requires ValidOrient(orient)
    ensures |r| == |orient|
  {
    seq(|orient|, i requires 0 <= i < |orient| => FlipOf(orient[i]))
  }

  /** The loop of lines 169-173. */
  method RotFlip(orient: seq<int>) returns (rot: seq<int>, flip: seq<int>)
    requires ValidOrient(orient)
    ensures rot == Rots(orient) && flip == Flips(orient)
  {
    rot, flip := [], [];
    for i := 0 to |orient|
      invariant rot == Rots(orient[..i]) && flip == Flips(orient[..i])
    {
      rot := rot + [(orient[i] + 2) % 3 + 1];
      flip := flip + [orient[i] - rot[i]];
    }
    assert orient[..|orient|] == orient;
  }

  /**
   * `rot_orient.map(x => tmp.indexOf(x))` with tmp a copy of rot_orient
   * sorted by `sort()`: each entry's first position in sorted order.
   */
  function Ranked(rot: seq<int>): (rank: seq<nat>)
    ensures |rank| == |rot| && forall i :: 0 <= i < |rot| ==> rank[i] < |rot|
  {
    var sorted := MatlabPermute.DefaultSort(rot);
    MatlabPermute.DefaultSortFacts(rot);
    assert forall i :: 0 <= i < |rot| ==> rot[i] in multiset(sorted);
    seq(|rot|, i requires 0 <= i < |rot| => FirstIndex(sorted, rot[i]))
  }

  /** Three distinct axes. */
  predicate AxisPermutation(rot: seq<int>)
  {
    |rot| == 3 && (forall i :: 0 <= i < 3 ==> 1 <= rot[i] <= 3) &&
    rot[0] != rot[1] && rot[1] != rot[2] && rot[0] != rot[2]
  }

  lemma SortedAxes(rot: seq<int>)
    requires AxisPermutation(rot)
    ensures MatlabPermute.DefaultSort(rot) == [1, 2, 3]
  {
    var sorted := MatlabPermute.DefaultSort(rot);
    SortedAxesEntries(rot);
    SortedAxesDistinct(rot);
    MatlabPermute.DefaultSortFacts(rot);
    assert |sorted| == |multiset(sorted)| == 3;
    var a, b, c := sorted[0], sorted[1], sorted[2];
    assert 1 <= a <= 3 && 1 <= b <= 3 && 1 <= c <= 3 && a != b && b != c;
    assert MatlabPermute.KeyLe(a, b) && MatlabPermute.KeyLe(b, c);
    MatlabPermute.KeyLeDigits(a, b);
    MatlabPermute.KeyLeDigits(b, c);
    assert a == 1 && b == 2 && c == 3;
    assert sorted == [a, b, c];
  }

  lemma SortedAxesEntries(rot: seq<int>)
    requires AxisPermutation(rot)
    ensures forall i :: 0 <= i < 3 ==> 1 <= MatlabPermute.DefaultSort(rot)[i] <= 3
  {
    var sorted := MatlabPermute.DefaultSort(rot);
    MatlabPermute.DefaultSortFacts(rot);
    forall i | 0 <= i < 3 ensures 1 <= sorted[i] <= 3 {
      assert sorted[i] in multiset(rot);
      var k := FirstIndex(rot, sorted[i]);
    }
  }

  lemma SortedAxesDistinct(rot: seq<int>)
    requires AxisPermutation(rot)
    ensures NoDuplicates(MatlabPermute.DefaultSort(rot))
  {
    var sorted := MatlabPermute.DefaultSort(rot);
    MatlabPermute.DefaultSortFacts(rot);
    assert NoDuplicates(rot);
    forall i, j | 0 <= i < j < 3 ensures sorted[i] != sorted[j] {
      if sorted[i] == sorted[j] {
        MatlabPermute.CountTwo(sorted, i, j);
        MatlabPermute.CountOne(rot, sorted[i]);
      }
    }
  }

  /** Three distinct entries from 0 to 2 are an order permute accepts. */
  lemma ThreeAxesOrder(rank: seq<int>)
    requires |rank| == 3 && (forall i :: 0 <= i < 3 ==> 0 <= rank[i] <= 2)
    requires rank[0] != rank[1] && rank[1] != rank[2] && rank[0] != rank[2]
    ensures MatlabPermute.ValidOrder(rank)
  {
    var a, b, c := rank[0], rank[1], rank[2];
    assert rank == [a, b, c];
    assert {a, b, c} == {0, 1, 2};
    MatlabPermute.OrderOfThree(a, b, c);
  }

  /**
   * For three distinct axes, the indexOf-after-sort step turns rot_orient
   * into the 0-based permutation rot_orient[i] - 1.
   */
  lemma RankedAxes(rot: seq<int>)
    requires AxisPermutation(rot)
    ensures forall i :: 0 <= i < 3 ==> Ranked(rot)[i] == rot[i] - 1
    ensures MatlabPermute.ValidOrder(Ranked(rot))
  {
    SortedAxes(rot);
    var rank := Ranked(rot);
    forall i | 0 <= i < 3 ensures rank[i] == rot[i] - 1 {
      AxisIndex(rot[i]);
    }
    ThreeAxesOrder(rank);
  }

  /** Axis x sits at position x - 1 of [1, 2, 3]. */
  lemma AxisIndex(x: int)
    requires 1 <= x <= 3
    ensures x in [1, 2, 3] && FirstIndex([1, 2, 3], x) == x - 1
  {
    var k := FirstIndex([1, 2, 3], x);
    assert [1, 2, 3][k] == x;
  }

  /** Positions 0 to |rank| - 1 take xs[rank[i]]; the rest are kept. */
  function Gather<T>(xs: seq<T>, rank: seq<nat>): (r: seq<T>)
    requires |rank| <= |xs| && forall i :: 0 <= i < |rank| ==> rank[i] < |xs|
    ensures |r| == |xs|
  {
    seq(|xs|, i requires 0 <= i < |xs| => if i < |rank| then xs[rank[i]] else xs[i])
  }

  /** Gathering along a permutation and then along its inverse gives the sequence back. */
  lemma GatherInverse<T>(xs: seq<T>, rank: seq<nat>)
    requires MatlabPermute.ValidOrder(rank) && |rank| == |xs|
    ensures forall i :: 0 <= i < |rank| ==> rank[i] < |xs| && MatlabPermute.Inverse(rank)[i] < |xs|
    ensures Gather(Gather(xs, rank), MatlabPermute.Inverse(rank)) == xs
  {
    var inv := MatlabPermute.Inverse(rank);
    forall i | 0 <= i < |rank| ensures rank[i] < |xs| {
      assert rank[i] in multiset(Range(|rank|));
    }
    var ys := Gather(xs, rank);
    forall i | 0 <= i < |xs| ensures Gather(ys, inv)[i] == xs[i] {
      assert rank[inv[i]] == i;
    }
  }

  function Pick(a: int, b: int, c: int, i: nat): int
  {
    if i == 0 then a else if i == 1 then b else c
  }

  /** Three numbers taken in another order have the same product. */
  lemma ReorderedProduct(a: int, b: int, c: int, x: int, y: int, z: int, i: nat, j: nat, k: nat)
    requires i <= 2 && j <= 2 && k <= 2 && i != j && j != k && i != k
    requires x == Pick(a, b, c, i) && y == Pick(a, b, c, j) && z == Pick(a, b, c, k)
    ensures x * y * z == a * b * c
  {
    if i == 0 {
      if j == 1 { } else { assert x * y * z == a * c * b; }
    } else if i == 1 {
      if j == 0 { assert x * y * z == b * a * c; } else { assert x * y * z == b * c * a; }
    } else {
      if j == 0 { assert x * y * z == c * a * b; } else { assert x * y * z == c * b * a; }
    }
  }

  /**
   * Line 214: on a flipped axis a originator that is not 0 becomes
   * dim - originator + 1 (NaN when it is not a number); otherwise it is kept.
   */
  function Mirrored(o: Number, flipped: bool, d: int): Number
  {
    if flipped && o != Real(0.0) then
      if o.Real? then Real(d as real - o.x + 1.0) else NaN
    else o
  }

  /**
   * Mirroring keeps an originator inside 1..d, and mirroring twice along the
   * same extent gives it back (unless the first mirror reached 0).
   */
  lemma MirrorFacts(x: real, d: int)
    ensures 1.0 <= x <= d as real ==> 1.0 <= Mirrored(Real(x), true, d).x <= d as real
    ensures x != d as real + 1.0 ==> Mirrored(Mirrored(Real(x), true, d), true, d) == Real(x)
  {
  }

  /** dim, pixdim, originator and flip_orient after lines 191-220. */
  datatype Reoriented = Reoriented(dim: seq<int>, pixdim: seq<Number>, originator: seq<Number>, flipOrient: seq<int>)

  /** A rank of at most three entries, each naming one of its own positions. */
  predicate RankLike(rank: seq<nat>)
  {
    |rank| <= 3 && forall i :: 0 <= i < |rank| ==> rank[i] < |rank|
  }

  predicate RegatherArgs(dim: seq<int>, pixdim: seq<Number>, originator: seq<Number>, rank: seq<nat>, flip: seq<int>)
  {
    |dim| == 8 && |pixdim| == 8 && |originator| == 5 && RankLike(rank) && |flip| == |rank|
  }

  /** xs with the entries from position `at` on replaced by `mid`. */
  function Overwrite<T>(xs: seq<T>, at: nat, mid: seq<T>): (r: seq<T>)
    requires at + |mid| <= |xs|
    ensures |r| == |xs| && forall k :: 0 <= k < |xs| ==> r[k] == if at <= k < at + |mid| then mid[k - at] else xs[k]
  {
    xs[..at] + mid + xs[at + |mid|..]
  }

  /** The first three originator entries, each mirrored when its axis is flipped. */
  function MirrorAll(tmp: seq<Number>, flip: seq<int>, dim: seq<int>): (r: seq<Number>)
    requires |tmp| == 3 && |dim| == 8
    ensures |r| == 3
  {
    seq(3, i requires 0 <= i < 3 => Mirrored(tmp[i], i < |flip| && flip[i] != 0, dim[i + 1]))
  }

  function Regathered(dim: seq<int>, pixdim: seq<Number>, originator: seq<Number>,
                      rank: seq<nat>, flip: seq<int>): (g: Reoriented)
    requires RegatherArgs(dim, pixdim, originator, rank, flip)
    ensures |g.dim| == 8 && |g.pixdim| == 8 && |g.originator| == 5 && |g.flipOrient| == |rank|
  {
    var newDim := Overwrite(dim, 1, Gather(dim[1..4], rank));
    var newPixdim := Overwrite(pixdim, 1, Gather(pixdim[1..4], rank));
    var newFlip := Gather(flip, rank);
    var tmp := Gather(originator[..3], rank);
    Reoriented(newDim, newPixdim, Overwrite(originator, 0, MirrorAll(tmp, newFlip, newDim)), newFlip)
  }

  /**
   * The gathering loop of lines 200-208: dim[1..3] and pixdim[1..3] in
   * place, the originator's first three entries and flip_orient as copies.
   */
  method GatherAxes(dim: array<int>, pixdim: array<Number>, originator: seq<Number>, rank: seq<nat>, flip: seq<int>)
    returns (tmp: seq<Number>, newFlip: seq<int>)
    requires dim.Length == 8 && pixdim.Length == 8 && |originator| == 5 && RankLike(rank) && |flip| == |rank|
    modifies dim, pixdim
    ensures dim[..] == Overwrite(old(dim[..]), 1, Gather(old(dim[1..4]), rank))
    ensures pixdim[..] == Overwrite(old(pixdim[..]), 1, Gather(old(pixdim[1..4]), rank))
    ensures tmp == Gather(originator[..3], rank) && newFlip == Gather(flip, rank)
  {
    // The loop's four gathers touch distinct objects, so they are done one after the other.
    GatherInPlace(dim, rank);
    GatherInPlace(pixdim, rank);
    tmp := Gather(originator[..3], rank);
    newFlip := Gather(flip, rank);
  }

  /** One gather of the loop: entries 1 to |rank| of an 8-entry array in place, through a copy. */
  method GatherInPlace<T>(a: array<T>, rank: seq<nat>)
    requires a.Length == 8 && RankLike(rank)
    modifies a
    ensures a[..] == Overwrite(old(a[..]), 1, Gather(old(a[1..4]), rank))
  {
    var before := a[..];
    for i := 0 to |rank|
      invariant forall k :: 0 <= k < i ==> a[k + 1] == before[rank[k] + 1]
      invariant forall k :: 0 <= k < 8 && (k == 0 || k > i) ==> a[k] == before[k]
    {
      a[i + 1] := before[rank[i] + 1];
    }
    GatheredAxes(a[..], before, rank);
  }

  /** An 8-entry array whose entries 1 to |rank| were gathered through rank. */
  lemma GatheredAxes<T>(now: seq<T>, before: seq<T>, rank: seq<nat>)
    requires |now| == 8 && |before| == 8 && RankLike(rank)
    requires forall k :: 0 <= k < |rank| ==> now[k + 1] == before[rank[k] + 1]
    requires forall k :: 0 <= k < 8 && (k == 0 || k > |rank|) ==> now[k] == before[k]
    ensures now == Overwrite(before, 1, Gather(before[1..4], rank))
  {
    var d := Overwrite(before, 1, Gather(before[1..4], rank));
    forall k | 0 <= k < 8 ensures now[k] == d[k] {
      if 1 <= k <= |rank| {
        assert now[(k - 1) + 1] == before[rank[k - 1] + 1];
      }
    }
  }

  /** The mirroring loop of lines 210-218. */
  method MirrorOriginator(originator: array<Number>, tmp: seq<Number>, flip: seq<int>, dim: seq<int>)
    requires originator.Length == 5 && |tmp| == 3 && |dim| == 8
    modifies originator
    ensures originator[..] == Overwrite(old(originator[..]), 0, MirrorAll(tmp, flip, dim))
  {
    var t := tmp;
    for i := 0 to 3
      invariant |t| == 3
      invariant forall k :: i <= k < 3 ==> t[k] == tmp[k]
      invariant forall k :: 0 <= k < i ==> originator[k] == MirrorAll(tmp, flip, dim)[k]
      invariant forall k :: 3 <= k < 5 ==> originator[k] == old(originator[k])
    {
      if i < |flip| && flip[i] != 0 && t[i] != Real(0.0) {
        t := t[i := if t[i].Real? then Real(dim[i + 1] as real - t[i].x + 1.0) else NaN];
      }
      originator[i] := t[i];
    }
  }

  /**
   * Lines 191-220 in place: rank rot_orient, gather dim[1..3],
   * pixdim[1..3], the first three originator entries and flip_orient
   * through the rank, then mirror the originator on flipped axes.
   */
  method Regather(dim: array<int>, pixdim: array<Number>, originator: array<Number>, rot: seq<int>, flip: seq<int>)
    returns (rank: seq<nat>, newFlip: seq<int>)
    requires dim.Length == 8 && pixdim.Length == 8 && originator.Length == 5
    requires |rot| <= 3 && |flip| == |rot|
    modifies dim, pixdim, originator
    ensures rank == Ranked(rot) && RankLike(rank)
    ensures Reoriented(dim[..], pixdim[..], originator[..], newFlip) ==
      Regathered(old(dim[..]), old(pixdim[..]), old(originator[..]), rank, flip)
  {
    rank := Ranked(rot);
    var tmp;
    tmp, newFlip := GatherAxes(dim, pixdim, originator[..], rank, flip);
    MirrorOriginator(originator, tmp, newFlip, dim[..]);
  }

  /** Regathered entry by entry, along a rank that moves axis rank[i] to axis i. */
  lemma RegatheredAt(dim: seq<int>, pixdim: seq<Number>, originator: seq<Number>, rank: seq<nat>, flip: seq<int>)
    requires RegatherArgs(dim, pixdim, originator, rank, flip) && |rank| == 3
    ensures var g := Regathered(dim, pixdim, originator, rank, flip);
      (forall i :: 0 <= i < 3 ==>
        g.dim[i + 1] == dim[rank[i] + 1] && g.pixdim[i + 1] == pixdim[rank[i] + 1] &&
        g.flipOrient[i] == flip[rank[i]] &&
        g.originator[i] == Mirrored(originator[rank[i]], flip[rank[i]] != 0, dim[rank[i] + 1])) &&
      g.dim[0] == dim[0] && g.dim[4..] == dim[4..] &&
      g.pixdim[0] == pixdim[0] && g.pixdim[4..] == pixdim[4..] &&
      g.originator[3..] == originator[3..]
  {
    var g := Regathered(dim, pixdim, originator, rank, flip);
    forall i | 0 <= i < 3
      ensures g.dim[i + 1] == dim[rank[i] + 1] && g.pixdim[i + 1] == pixdim[rank[i] + 1]
    {
      assert dim[1..4][rank[i]] == dim[rank[i] + 1];
      assert pixdim[1..4][rank[i]] == pixdim[rank[i] + 1];
    }
    assert g.dim[4..] == dim[4..];
    assert g.pixdim[4..] == pixdim[4..];
    assert g.originator[3..] == originator[3..];
  }

  /**
   * For three codes along distinct axes, the new axis i is the old axis
   * rot_orient[i]: dim and pixdim entries 1 to 3 are gathered from it,
   * the rank is the 0-based permutation, flip_orient holds the flips of
   * the gathered axes, the originator the gathered and mirrored entries; the
   * voxel count dim[1] * dim[2] * dim[3] and every other entry are kept.
   */
  lemma RegatherPermutes(dim: seq<int>, pixdim: seq<Number>, originator: seq<Number>, orient: seq<int>)
    requires |dim| == 8 && |pixdim| == 8 && |originator| == 5
    requires ValidOrient(orient) && AxisPermutation(Rots(orient))
    ensures var rank := Ranked(Rots(orient));
      MatlabPermute.ValidOrder(rank) && RankLike(rank) &&
      var g := Regathered(dim, pixdim, originator, rank, Flips(orient));
      (forall i :: 0 <= i < 3 ==>
        var axis := RotOf(orient[i]);
        rank[i] == axis - 1 &&
        g.dim[i + 1] == dim[axis] && g.pixdim[i + 1] == pixdim[axis] &&
        g.flipOrient[i] == FlipOf(orient[axis - 1]) &&
        g.originator[i] == Mirrored(originator[axis - 1], g.flipOrient[i] != 0, dim[axis])) &&
      g.dim[0] == dim[0] && g.dim[4..] == dim[4..] &&
      g.pixdim[0] == pixdim[0] && g.pixdim[4..] == pixdim[4..] &&
      g.originator[3..] == originator[3..] &&
      g.dim[1] * g.dim[2] * g.dim[3] == dim[1] * dim[2] * dim[3]
  {
    var rot, flip := Rots(orient), Flips(orient);
    RankedAxes(rot);
    var rank := Ranked(rot);
    RegatheredAt(dim, pixdim, originator, rank, flip);
    var g := Regathered(dim, pixdim, originator, rank, flip);
    RegatherKeepsVolume(dim, pixdim, originator, rank, flip);
  }

  /** Along three distinct axes the voxel count dim[1] * dim[2] * dim[3] is kept. */
  lemma RegatherKeepsVolume(dim: seq<int>, pixdim: seq<Number>, originator: seq<Number>, rank: seq<nat>, flip: seq<int>)
    requires RegatherArgs(dim, pixdim, originator, rank, flip) && |rank| == 3
    requires rank[0] != rank[1] && rank[1] != rank[2] && rank[0] != rank[2]
    ensures var g := Regathered(dim, pixdim, originator, rank, flip);
      g.dim[1] * g.dim[2] * g.dim[3] == dim[1] * dim[2] * dim[3]
  {
    GatheredDims(dim, pixdim, originator, rank, flip);
    var g := Regathered(dim, pixdim, originator, rank, flip);
    ReorderedProduct(dim[1], dim[2], dim[3], g.dim[1], g.dim[2], g.dim[3], rank[0], rank[1], rank[2]);
  }

  lemma GatheredDims(dim: seq<int>, pixdim: seq<Number>, originator: seq<Number>, rank: seq<nat>, flip: seq<int>)
    requires RegatherArgs(dim, pixdim, originator, rank, flip) && |rank| == 3
    ensures var g := Regathered(dim, pixdim, originator, rank, flip);
      forall i :: 0 <= i < 3 ==> g.dim[i + 1] == Pick(dim[1], dim[2], dim[3], rank[i])
  {
    var g := Regathered(dim, pixdim, originator, rank, flip);
    var mid := Gather(dim[1..4], rank);
    assert g.dim == Overwrite(dim, 1, mid);
    forall i | 0 <= i < 3 ensures g.dim[i + 1] == Pick(dim[1], dim[2], dim[3], rank[i]) {
      assert g.dim[i + 1] == mid[i] == dim[1..4][rank[i]];
    }
  }

  /**
   * The general branch run on the identity orientation [1, 2, 3] would keep
   * dim, pixdim and originator, with rank [0, 1, 2] and flips [0, 0, 0]; the
   * identity branch of lines 280-284 keeps them too but records [] and [].
   */
  lemma RegatherIdentity(dim: seq<int>, pixdim: seq<Number>, originator: seq<Number>, orient: seq<int>)
    requires |dim| == 8 && |pixdim| == 8 && |originator| == 5 && orient == [1, 2, 3]
    ensures Ranked(Rots(orient)) == [0, 1, 2]
    ensures Regathered(dim, pixdim, originator, [0, 1, 2], Flips(orient)) ==
      Reoriented(dim, pixdim, originator, [0, 0, 0])
  {
    var rot, flip := Rots(orient), Flips(orient);
    assert rot == orient;
    assert flip == [0, 0, 0];
    RankedAxes(rot);
    var rank: seq<nat> := [0, 1, 2];
    GatherInOrder(dim[1..4], rank);
    GatherInOrder(pixdim[1..4], rank);
    GatherInOrder(originator[..3], rank);
    GatherInOrder(flip, rank);
    assert Overwrite(dim, 1, dim[1..4]) == dim;
    assert Overwrite(pixdim, 1, pixdim[1..4]) == pixdim;
    assert MirrorAll(originator[..3], flip, dim) == originator[..3];
    assert Overwrite(originator, 0, originator[..3]) == originator;
  }

  lemma GatherInOrder<T>(xs: seq<T>, rank: seq<nat>)
    requires |xs| == 3 && rank == [0, 1, 2]
    ensures Gather(xs, rank) == xs
  {
  }

  // ----- scaling -----

  /** The eight plain numeric datatypes, the ones lines 86-121 rescale. */
  predicate PlainType(code: int)
  {
    code in {2, 4, 8, 16, 64, 256, 512, 768}
  }

  /** scl_slope and scl_inter call for a rescale of a plain image. */
  predicate ScalingApplies(dime: NiftiHeader.ImageDimension)
  {
    dime.sclSlope != 0.0 && PlainType(dime.datatypeCode) && (dime.sclSlope != 1.0 || dime.sclInter != 0.0)
  }

  /**
   * Lines 86-137 on the header's image_dimension. When the plain rescale
   * applies, a non-array image throws a TypeError (`flat` is missing) and
   * an image with any element throws a ReferenceError: the loop updating
   * glmax and glmin reads `hdr`, which is declared further down. Only an
   * image without elements gets through, as float32 (float64 stays
   * float64) with scl_slope 0. The complex rescale always throws a
   * TypeError (findMinMaxComplex reads `.imaginary` of an array).
   */
  function Scaled(dime: NiftiHeader.ImageDimension, img: Value): (r: Outcome<NiftiHeader.ImageDimension>)
  {
    if ScalingApplies(dime) then
      if !img.Arr? then Err(TypeError)
      else if Leaves(img) != [] then Err(ReferenceError)
      else if dime.datatypeCode == 64 then Ok(dime.(bitpix := 64, sclSlope := 0.0))
      else Ok(dime.(datatypeCode := 16, bitpix := 32, sclSlope := 0.0))
    else if dime.sclSlope != 0.0 && dime.datatypeCode in {32, 1792} then Err(TypeError)
    else Ok(dime)
  }

  /**
   * The scaling step fails exactly in the cases above; when it succeeds it
   * either changes nothing or switches scaling off and makes the image
   * float32 or float64, keeping every other field, and a second pass
   * changes nothing: scaling is applied at most once.
   */
  lemma ScaledFacts(dime: NiftiHeader.ImageDimension, img: Value)
    ensures Scaled(dime, img).Err? <==>
      (ScalingApplies(dime) && (!img.Arr? || Leaves(img) != [])) ||
      (dime.sclSlope != 0.0 && dime.datatypeCode in {32, 1792})
    ensures Scaled(dime, img).Ok? ==>
      var d := Scaled(dime, img).value;
      (d == dime || (ScalingApplies(dime) && d.sclSlope == 0.0 &&
                     ((d.datatypeCode == 64 && d.bitpix == 64) || (d.datatypeCode == 16 && d.bitpix == 32)) &&
                     d.(datatypeCode := dime.datatypeCode, bitpix := dime.bitpix, sclSlope := dime.sclSlope) == dime)) &&
      !ScalingApplies(d) && Scaled(d, img) == Ok(d)
  {
  }

  // ----- xform_nii -----

  /** nii as xform_nii receives it: the header, the file facts and the image. */
  datatype Nii = Nii(hdr: NiftiHeader.Header, filetype: int, fileprefix: string, machine: string, img: Value)

  /** The array lengths the header reader produces. */
  predicate Loaded(h: NiftiHeader.Header)
  {
    |h.dime.dim| == 8 && |h.dime.pixdim| == 8 && |h.hist.originator| == 5
  }

  /**
   * nii after xform_nii. pixdim and originator may now hold NaN and
   * undefined, so they are kept beside the header, whose own pixdim and
   * originator are left empty; rot_orient and flip_orient are the fields
   * xform_nii adds to hdr.hist; `original` is the header as it arrived.
   */
  datatype Transformed = Transformed(hdr: NiftiHeader.Header, pixdim: seq<Number>, originator: seq<Number>,
                                     rotOrient: seq<int>, flipOrient: seq<int>,
                                     filetype: int, fileprefix: string, machine: string,
                                     img: Value, original: NiftiHeader.Header)

  function Cleared(h: NiftiHeader.Header): NiftiHeader.Header
  {
    h.(dime := h.dime.(pixdim := []), hist := h.hist.(originator := []))
  }

  /** The result before the rotation step, and whether that step runs. */
  datatype Prepared = Prepared(nii: Transformed, rotate: bool)

  /** `flip` returns undefined, so a flipped axis among the first three leaves nii.img undefined. */
  function FlippedImage(img: Value, flip: seq<int>): Value
  {
    if exists i :: 0 <= i < |flip| && i < 3 && flip[i] != 0 then Undefined else img
  }

  /**
   * The part of xform_nii after change_hdr. The orientation [1, 2, 3]
   * needs no rotation; any other flips the image when an axis is
   * reversed and regathers dim, pixdim and the originator by the rank of
   * the rotation. rot_orient is that rank before permute sorts it.
   */
  function AfterChange(h: NiftiHeader.Header, pixdim: seq<Number>, originator: seq<Number>, orient: seq<int>, nii: Nii)
    : (p: Prepared)
    requires |h.dime.dim| == 8 && |pixdim| == 8 && |originator| == 5 && ValidOrient(orient)
  {
    if orient == [1, 2, 3] then
      Prepared(Transformed(Cleared(h), pixdim, originator, [], [], nii.filetype, nii.fileprefix, nii.machine,
                           nii.img, nii.hdr), false)
    else
      var flip := Flips(orient);
      var rank := Ranked(Rots(orient));
      var g := Regathered(h.dime.dim, pixdim, originator, rank, flip);
      Prepared(Transformed(Cleared(h.(dime := h.dime.(dim := g.dim))), g.pixdim, g.originator, rank, g.flipOrient,
                           nii.filetype, nii.fileprefix, nii.machine, FlippedImage(nii.img, flip), nii.hdr), true)
  }

  /**
   * After change_hdr, the identity orientation changes nothing but
   * clearing the header's arrays into the result, and any other
   * orientation goes on to the rotation step.
   */
  lemma AfterChangeIdentity(h: NiftiHeader.Header, pixdim: seq<Number>, originator: seq<Number>, orient: seq<int>, nii: Nii)
    requires |h.dime.dim| == 8 && |pixdim| == 8 && |originator| == 5 && ValidOrient(orient)
    ensures var p := AfterChange(h, pixdim, originator, orient, nii);
      (p.rotate <==> orient != [1, 2, 3]) && p.nii.original == nii.hdr &&
      (!p.rotate ==> p.nii == Transformed(Cleared(h), pixdim, originator, [], [], nii.filetype, nii.fileprefix,
                                           nii.machine, nii.img, nii.hdr))
  {
  }

  /**
   * An orientation other than the identity that names the three axes
   * yields a rank permute accepts, keeps the number of voxels, and leaves
   * the image undefined exactly when an axis is reversed.
   */
  lemma AfterChangeRotation(h: NiftiHeader.Header, pixdim: seq<Number>, originator: seq<Number>, orient: seq<int>, nii: Nii)
    requires |h.dime.dim| == 8 && |pixdim| == 8 && |originator| == 5 && ValidOrient(orient)
    requires orient != [1, 2, 3] && AxisPermutation(Rots(orient))
    ensures var t := AfterChange(h, pixdim, originator, orient, nii).nii;
      var d := t.hdr.dime.dim;
      MatlabPermute.ValidOrder(t.rotOrient) && |t.rotOrient| == 3 &&
      d[1] * d[2] * d[3] == h.dime.dim[1] * h.dime.dim[2] * h.dime.dim[3] &&
      (t.img == Undefined <==> nii.img == Undefined || exists i :: 0 <= i < 3 && FlipOf(orient[i]) != 0)
  {
    var rot, flip := Rots(orient), Flips(orient);
    RankedAxes(rot);
    var rank := Ranked(rot);
    RegatherKeepsVolume(h.dime.dim, pixdim, originator, rank, flip);
    if exists i :: 0 <= i < 3 && FlipOf(orient[i]) != 0 {
      var i :| 0 <= i < 3 && FlipOf(orient[i]) != 0;
      assert flip[i] != 0;
    }
  }

  /**
   * An Analyze file (filetype 0) keeps its orientation: xform_nii returns
   * after the scaling step with empty rot_orient and flip_orient, the
   * image untouched and pixdim and the originator as read.
   */
  lemma AnalyzeKeepsOrientation(nii: Nii, preferred: string, affine: MatlabMatrix.Matrix)
    requires Loaded(nii.hdr) && MatlabMatrix.IsMatrix(affine, 3, 3) && nii.filetype == 0
    ensures var p := XformPrepared(nii, preferred, affine);
      p.Err? <==> Scaled(nii.hdr.dime, nii.img).Err?
    ensures var p := XformPrepared(nii, preferred, affine);
      p.Ok? ==> !p.value.rotate && p.value.nii.rotOrient == [] && p.value.nii.flipOrient == [] &&
                p.value.nii.img == nii.img && p.value.nii.pixdim == Reals(nii.hdr.dime.pixdim) &&
                p.value.nii.originator == Ints(nii.hdr.hist.originator) &&
                p.value.nii.hdr.dime.dim == nii.hdr.dime.dim
  {
    ScaledFacts(nii.hdr.dime, nii.img);
  }

  /**
   * The error cases of xform_nii before the rotation: a failed scaling
   * step or change_hdr. Every other outcome carries the header as it
   * arrived in `original`.
   */
  lemma XformPreparedErrors(nii: Nii, preferred: string, affine: MatlabMatrix.Matrix)
    requires Loaded(nii.hdr) && MatlabMatrix.IsMatrix(affine, 3, 3)
    ensures var p := XformPrepared(nii, preferred, affine);
      var sc := Scaled(nii.hdr.dime, nii.img);
      (p.Err? <==> sc.Err? || (nii.filetype != 0 && Oriented(nii.hdr.(dime := sc.value), nii, preferred, affine).Err?)) &&
      (p.Ok? ==> p.value.nii.original == nii.hdr)
  {
    var sc := Scaled(nii.hdr.dime, nii.img);
    if sc.Ok? && nii.filetype != 0 {
      var h := nii.hdr.(dime := sc.value);
      assert Loaded(h);
    }
  }

  /**
   * xform_nii up to the rotation step: the scaling, the early return for
   * Analyze files (filetype 0), change_hdr and the reorientation.
   */
  function XformPrepared(nii: Nii, preferred: string, affine: MatlabMatrix.Matrix): (r: Outcome<Prepared>)
    requires Loaded(nii.hdr) && MatlabMatrix.IsMatrix(affine, 3, 3)
  {
    var dime :- Scaled(nii.hdr.dime, nii.img);
    var h := nii.hdr.(dime := dime);
    var pixdim, originator := Reals(dime.pixdim), Ints(h.hist.originator);
    if nii.filetype == 0 then
      Ok(Prepared(Transformed(Cleared(h), pixdim, originator, [], [], nii.filetype, nii.fileprefix, nii.machine,
                              nii.img, nii.hdr), false))
    else
      Oriented(h, nii, preferred, affine)
  }

  /** change_hdr on the (scaled) header h, then the reorientation. */
  function Oriented(h: NiftiHeader.Header, nii: Nii, preferred: string, affine: MatlabMatrix.Matrix): (r: Outcome<Prepared>)
    requires Loaded(h) && MatlabMatrix.IsMatrix(affine, 3, 3)
  {
    var q := Quatern(h.hist.quaternB, h.hist.quaternC, h.hist.quaternD);
    var changed :- ChangedHdr(Spatial(Reals(h.dime.pixdim), Ints(h.hist.originator), h.hist.qformCode,
                                      h.hist.sformCode, h.dime.xyztUnits),
                              preferred, q, affine);
    var (sp, orient) := changed;
    var h2 := h.(dime := h.dime.(xyztUnits := sp.xyztUnits),
                 hist := h.hist.(qformCode := sp.qformCode, sformCode := sp.sformCode));
    Ok(AfterChange(h2, sp.pixdim, sp.originator, orient, nii))
  }

  /**
   * What xform_nii guarantees around the rotation step. Analyze files,
   * the identity orientation and every error before the rotation give
   * XformPrepared's value. Otherwise permute receives the rank: repeated
   * or invalid indices throw its errors; a rank already in order leaves
   * the image alone; a rank that is a permutation of a regular image's
   * levels permutes it; and since permute sorts its argument in place and
   * hdr.hist.rot_orient is that same array, the recorded rot_orient ends
   * as 0, 1, 2, ... whenever the call succeeds.
   */
  ghost predicate XformOutcome(p: Prepared, r: Outcome<Transformed>)
  {
    (!p.rotate ==> r == Ok(p.nii)) && (p.rotate ==> RotateOutcome(p.nii, r))
  }

  ghost predicate RotateOutcome(t: Transformed, r: Outcome<Transformed>)
  {
    var rank := t.rotOrient;
    var shape := Size(t.img);
    (!NoDuplicates(rank) ==> r == Err(ErrorObject(MatlabPermute.RepeatedIndexMessage))) &&
    (NoDuplicates(rank) && !MatlabPermute.ValidOrder(rank) ==> r == Err(ErrorObject(MatlabPermute.InvalidIndexMessage))) &&
    (r.Ok? ==> r.value == t.(img := r.value.img, rotOrient := Range(|rank|))) &&
    (rank == Range(|rank|) && |rank| <= 10 ==> r == Ok(t)) &&
    (MatlabPermute.ValidOrder(rank) && HasShape(t.img, shape) && |rank| <= |shape| &&
     (forall k :: 0 <= k < |shape| ==> shape[k] >= 1) ==>
       r.Ok? && MatlabPermute.IsPermuted(r.value.img, t.img, shape, rank))
  }

  /** A fresh array holding s, as the header's JavaScript arrays are. */
  method NumberArray(s: seq<Number>) returns (a: array<Number>)
    ensures fresh(a) && a[..] == s
  {
    a := new Number[|s|](i requires 0 <= i < |s| => s[i]);
  }

  method IntArray(s: seq<int>) returns (a: array<int>)
    ensures fresh(a) && a[..] == s
  {
    a := new int[|s|](i requires 0 <= i < |s| => s[i]);
  }

  /** The rotation step: permute the image by rot_orient, which permute sorts in place. */
  method Rotate(t: Transformed) returns (r: Outcome<Transformed>)
    ensures RotateOutcome(t, r)
  {
    var rank := t.rotOrient;
    var order := IntArray(rank);
    var permuted := MatlabPermute.Permute(t.img, order, Size(t.img));
    if permuted.Err? {
      return Err(permuted.error);
    }
    r := Ok(t.(img := permuted.value, rotOrient := order[..]));
  }

  /** The reorientation on the header's arrays, after change_hdr. */
  method Reorient(h: NiftiHeader.Header, pixdim: array<Number>, originator: array<Number>, orient: seq<int>, nii: Nii)
    returns (p: Prepared)
    requires |h.dime.dim| == 8 && pixdim.Length == 8 && originator.Length == 5 && ValidOrient(orient)
    modifies pixdim, originator
    ensures p == AfterChange(h, old(pixdim[..]), old(originator[..]), orient, nii)
  {
    MatlabPermute.NumArrayEqual(orient, [1, 2, 3]);
    if IsEqual(MatlabPermute.NumArray(orient), MatlabPermute.NumArray([1, 2, 3])) {
      return Prepared(Transformed(Cleared(h), pixdim[..], originator[..], [], [],
                                  nii.filetype, nii.fileprefix, nii.machine, nii.img, nii.hdr), false);
    }
    var rot, flip := RotFlip(orient);
    var img := nii.img;
    for i := 0 to 3
      invariant img == FlippedImage(nii.img, flip[..if i < |flip| then i else |flip|])
    {
      if i < |flip| && flip[i] != 0 {
        img := Undefined;
      }
    }
    assert flip[..if 3 < |flip| then 3 else |flip|] == flip;
    var dim := IntArray(h.dime.dim);
    var rank, newFlip := Regather(dim, pixdim, originator, rot, flip);
    var h2 := h.(dime := h.dime.(dim := dim[..]));
    p := Prepared(Transformed(Cleared(h2), pixdim[..], originator[..], rank, newFlip,
                              nii.filetype, nii.fileprefix, nii.machine, img, nii.hdr), true);
  }

  /** change_hdr and the reorientation on the header's arrays. */
  method Orient(h: NiftiHeader.Header, nii: Nii, preferred: string, affine: MatlabMatrix.Matrix) returns (r: Outcome<Prepared>)
    requires Loaded(h) && MatlabMatrix.IsMatrix(affine, 3, 3)
    ensures r == Oriented(h, nii, preferred, affine)
  {
    var pixdim := NumberArray(Reals(h.dime.pixdim));
    var originator := NumberArray(Ints(h.hist.originator));
    var q := Quatern(h.hist.quaternB, h.hist.quaternC, h.hist.quaternD);
    var changed := ChangeHdr(pixdim, originator, h.hist.qformCode, h.hist.sformCode, h.dime.xyztUnits, preferred, q, affine);
    if changed.Err? {
      return Err(changed.error);
    }
    var (qformCode, sformCode, xyztUnits, orient) := changed.value;
    var h2 := h.(dime := h.dime.(xyztUnits := xyztUnits), hist := h.hist.(qformCode := qformCode, sformCode := sformCode));
    var p := Reorient(h2, pixdim, originator, orient, nii);
    return Ok(p);
  }

  /**
   * xform_nii on a loaded image. The 4-D `pattern` path and the
   * complex/RGB plane handling of the rotation step are not part of this
   * model: the image has at most three dimensions and a plain datatype
   * whenever that step runs.
   */
  method XformNii(nii: Nii, preferred: string, affine: MatlabMatrix.Matrix) returns (r: Outcome<Transformed>)
    requires Loaded(nii.hdr) && MatlabMatrix.IsMatrix(affine, 3, 3)
    requires var p := XformPrepared(nii, preferred, affine);
      p.Ok? && p.value.rotate ==> Ndims(nii.img) <= 3 && p.value.nii.hdr.dime.datatypeCode !in {32, 1792, 128, 511}
    ensures var p := XformPrepared(nii, preferred, affine);
      (p.Err? ==> r == Err(p.error)) && (p.Ok? ==> XformOutcome(p.value, r))
  {
    var scaled := Scaled(nii.hdr.dime, nii.img);
    if scaled.Err? {
      return Err(scaled.error);
    }
    var h := nii.hdr.(dime := scaled.value);
    if nii.filetype == 0 {
      return Ok(Transformed(Cleared(h), Reals(h.dime.pixdim), Ints(h.hist.originator), [], [],
                            nii.filetype, nii.fileprefix, nii.machine, nii.img, nii.hdr));
    }
    var p :- Orient(h, nii, preferred, affine);
    if !p.rotate {
      return Ok(p.nii);
    }
    r := Rotate(p.nii);
  }
}
