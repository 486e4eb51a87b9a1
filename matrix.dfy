// The matrix routines of the MATLAB-compatibility library: det by cofactor
// expansion, diag, bitset on 32-bit integers, and inv by Gauss-Jordan
// elimination. Matrices are sequences of rows of reals.

module MatlabMatrix {
  import opened JsValues

  type Matrix = seq<seq<real>>

  /** Every row has n entries. */
  predicate IsMatrix(m: Matrix, rows: nat, cols: nat)
  {
    |m| == rows && forall i :: 0 <= i < rows ==> |m[i]| == cols
  }

  predicate IsSquare(m: Matrix)
  {
    IsMatrix(m, |m|, |m|)
  }

  function Identity(n: nat): (r: Matrix)
    ensures IsMatrix(r, n, n)
  {
    seq(n, i => seq(n, j => if i == j then 1.0 else 0.0))
  }

  function RealProd(v: seq<real>): real
  {
    if v == [] then 1.0 else v[0] * RealProd(v[1..])
  }

  // ----- det -----

  /** `row.filter((_, col) => col !== j)`. */
  function RemoveAt(row: seq<real>, j: nat): (r: seq<real>)
    requires j < |row|
    ensures |r| == |row| - 1
    ensures forall c :: 0 <= c < |r| ==> r[c] == if c < j then row[c] else row[c + 1]
  {
    row[..j] + row[j + 1..]
  }

  /** The submatrix without row 0 and column j. */
  function Minor(m: Matrix, j: nat): (r: Matrix)
    requires IsSquare(m) && j < |m|
    ensures IsSquare(r) && |r| == |m| - 1
  {
    seq(|m| - 1, i requires 0 <= i < |m| - 1 => RemoveAt(m[i + 1], j))
  }

  function Sign(j: nat): real
  {
    if j % 2 == 0 then 1.0 else -1.0
  }

  /**
   * `det(matrix)`: the entry of a 1-by-1 matrix, ad - bc for a 2-by-2
   * matrix, and otherwise the expansion along row 0 (which is 0 for the
   * empty matrix).
   */
  function DetSpec(m: Matrix): real
    requires IsSquare(m)
    decreases |m|, |m| + 1
  {
    if |m| == 1 then m[0][0]
    else if |m| == 2 then m[0][0] * m[1][1] - m[0][1] * m[1][0]
    else Expansion(m, |m|)
  }

  /** The first k terms of the expansion along row 0. */
  function Expansion(m: Matrix, k: nat): real
    requires IsSquare(m) && k <= |m|
    decreases |m|, k
  {
    if k == 0 then 0.0
    else Expansion(m, k - 1) + Cofactor(Sign(k - 1), m[0][k - 1], DetSpec(Minor(m, k - 1)))
  }

  /** One term of the expansion: the signed entry times its minor's determinant. */
  function Cofactor(sign: real, entry: real, minor: real): real
  {
    sign * entry * minor
  }

  method Det(m: Matrix) returns (d: real)
    requires IsSquare(m)
    ensures d == DetSpec(m)
    decreases |m|, 1
  {
    var n := |m|;
    if n == 1 {
      return m[0][0];
    }
    if n == 2 {
      return m[0][0] * m[1][1] - m[0][1] * m[1][0];
    }
    d := ExpandRow(m);
  }

  /** The loop of det for n = 0 and n >= 3: the cofactor expansion along row 0. */
  method ExpandRow(m: Matrix) returns (d: real)
    requires IsSquare(m)
    ensures d == Expansion(m, |m|)
    decreases |m|, 0
  {
    d := 0.0;
    var j := 0;
    while j < |m|
      invariant 0 <= j <= |m|
      invariant d == Expansion(m, j)
    {
      var minor := Det(Minor(m, j));
      d := d + Cofactor(Sign(j), m[0][j], minor);
      j := j + 1;
    }
  }

  /** For 3-by-3 matrices the expansion is the rule of Sarrus. */
  lemma DetSarrus(m: Matrix)
    requires IsSquare(m) && |m| == 3
    ensures DetSpec(m) ==
      m[0][0] * m[1][1] * m[2][2] + m[0][1] * m[1][2] * m[2][0] + m[0][2] * m[1][0] * m[2][1]
      - m[0][2] * m[1][1] * m[2][0] - m[0][0] * m[1][2] * m[2][1] - m[0][1] * m[1][0] * m[2][2]
  {
    var m0, m1, m2 := Minor(m, 0), Minor(m, 1), Minor(m, 2);
    assert m0[0] == RemoveAt(m[1], 0) && m0[1] == RemoveAt(m[2], 0);
    assert m1[0] == RemoveAt(m[1], 1) && m1[1] == RemoveAt(m[2], 1);
    assert m2[0] == RemoveAt(m[1], 2) && m2[1] == RemoveAt(m[2], 2);
    assert DetSpec(m0) == m[1][1] * m[2][2] - m[1][2] * m[2][1];
    assert DetSpec(m1) == m[1][0] * m[2][2] - m[1][2] * m[2][0];
    assert DetSpec(m2) == m[1][0] * m[2][1] - m[1][1] * m[2][0];
    assert Sign(0) == 1.0 && Sign(1) == -1.0 && Sign(2) == 1.0;
    assert Expansion(m, 1) == m[0][0] * DetSpec(m0);
    assert Expansion(m, 2) == Expansion(m, 1) - m[0][1] * DetSpec(m1);
    assert Expansion(m, 3) == Expansion(m, 2) + m[0][2] * DetSpec(m2);
  }

  // ----- diag -----

  /** diag(values): a square matrix with `values` on the diagonal and 0 elsewhere. */
  method Diag(values: seq<real>) returns (matrix: Matrix)
    ensures IsSquare(matrix) && |matrix| == |values|
    ensures forall i, j :: 0 <= i < |values| && 0 <= j < |values| ==>
      matrix[i][j] == if i == j then values[i] else 0.0
  {
    var n := |values|;
    matrix := seq(n, _ => seq(n, _ => 0.0));
    var i := 0;
    while i < n
      invariant 0 <= i <= n
      invariant IsSquare(matrix) && |matrix| == n
      invariant forall r, c :: 0 <= r < n && 0 <= c < n ==>
        matrix[r][c] == if r == c && r < i then values[r] else 0.0
    {
      matrix := matrix[i := matrix[i][i := values[i]]];
      i := i + 1;
    }
  }

  function DiagMatrix(values: seq<real>): (r: Matrix)
    ensures IsSquare(r) && |r| == |values|
  {
    seq(|values|, i requires 0 <= i < |values| =>
      seq(|values|, j requires 0 <= j < |values| => if i == j then values[i] else 0.0))
  }

  lemma MinorOfDiag(values: seq<real>)
    requires |values| >= 1
    ensures Minor(DiagMatrix(values), 0) == DiagMatrix(values[1..])
  {
    var d := DiagMatrix(values);
    var e := DiagMatrix(values[1..]);
    forall i | 0 <= i < |values| - 1 ensures Minor(d, 0)[i] == e[i] {
      assert Minor(d, 0)[i] == RemoveAt(d[i + 1], 0);
    }
  }

  /** When row 0 is zero after its first entry, only the first term of the expansion remains. */
  lemma {:induction false} ExpansionOfRowZero(m: Matrix, k: nat)
    requires IsSquare(m) && 1 <= k <= |m|
    requires forall j :: 1 <= j < |m| ==> m[0][j] == 0.0
    ensures Expansion(m, k) == Expansion(m, 1)
  {
    if k > 1 {
      var d := DetSpec(Minor(m, k - 1));
      assert Expansion(m, k) == Expansion(m, k - 1) + Cofactor(Sign(k - 1), m[0][k - 1], d);
      ExpansionOfRowZero(m, k - 1);
      CofactorOfZero(Sign(k - 1), m[0][k - 1], d);
    }
  }

  lemma CofactorOfZero(sign: real, entry: real, minor: real)
    requires entry == 0.0
    ensures Cofactor(sign, entry, minor) == 0.0
  {
  }

  /** The determinant of a non-empty diagonal matrix is the product of its diagonal. */
  lemma {:induction false} DetDiag(values: seq<real>)
    requires |values| >= 1
    ensures DetSpec(DiagMatrix(values)) == RealProd(values)
    decreases |values|
  {
    var d := DiagMatrix(values);
    var n := |values|;
    if n == 1 {
      assert values[1..] == [];
    } else if n == 2 {
      assert values[1..][1..] == [];
      assert RealProd(values[1..]) == values[1];
      assert d[0][0] == values[0] && d[1][1] == values[1] && d[0][1] == 0.0 && d[1][0] == 0.0;
    } else {
      ExpansionOfRowZero(d, n);
      MinorOfDiag(values);
      DetDiag(values[1..]);
    }
  }

  lemma DetIdentity(n: nat)
    requires n >= 1
    ensures DetSpec(Identity(n)) == 1.0
  {
    var ones := seq(n, _ => 1.0);
    forall i | 0 <= i < n ensures Identity(n)[i] == DiagMatrix(ones)[i] {
    }
    assert Identity(n) == DiagMatrix(ones);
    DetDiag(ones);
    AllOnes(ones);
  }

  lemma {:induction false} AllOnes(v: seq<real>)
    requires forall i :: 0 <= i < |v| ==> v[i] == 1.0
    ensures RealProd(v) == 1.0
  {
    if v != [] {
      AllOnes(v[1..]);
    }
  }

  // ----- bitset -----

  /** ToInt32 / ToUint32: the low 32 bits of an integer. */
  function Bits(x: int): bv32
  {
    if 0 <= x < 0x1_0000_0000 then x as bv32 else (x % 0x1_0000_0000) as bv32
  }

  /** A 32-bit pattern read as a signed int32, as `|` and `&` return it. */
  function Signed(b: bv32): (r: int)
    ensures -0x8000_0000 <= r < 0x8000_0000
  {
    var n := b as int;
    if n < 0x8000_0000 then n else n - 0x1_0000_0000
  }

  /** `1 << position`: the shift count is taken modulo 32. */
  function Mask(position: int): bv32
  {
    (1 as bv32) << ((position % 32) as bv5)
  }

  /** The bit operation itself: `b | mask` when bit is 1, else `b & ~mask`. */
  function SetBit(b: bv32, mask: bv32, bit: int): bv32
  {
    if bit == 1 then b | mask else b & !mask
  }

  /** `bitset(value, position, bit)` on the int32 conversion of value. */
  function Bitset(value: int, position: int, bit: int): (r: int)
    ensures -0x8000_0000 <= r < 0x8000_0000
  {
    Signed(SetBit(Bits(value), Mask(position), bit))
  }

  /** Setting (`b | mask`): the masked bits become 1, the others are kept, and setting again changes nothing. */
  lemma SetBitOn(b: bv32, mask: bv32)
    ensures (b | mask) & mask == mask
    ensures (b | mask) & !mask == b & !mask
    ensures (b | mask) | mask == b | mask
  {
  }

  /** Clearing (`b & ~mask`): the masked bits become 0, the others are kept, and clearing again changes nothing. */
  lemma SetBitOff(b: bv32, mask: bv32)
    ensures (b & !mask) & mask == 0
    ensures (b & !mask) & !mask == b & !mask
  {
  }

  // The values of the bitset unit tests.

  lemma BitsetSetsBit()
    ensures Bitset(5, 1, 1) == 7
  {
    assert Bits(5) == 5 && Mask(1) == 2 && SetBit(5, 2, 1) == 7 && Signed(7) == 7;
  }

  lemma BitsetClearsBit()
    ensures Bitset(5, 2, 0) == 1
  {
    assert Bits(5) == 5 && Mask(2) == 4 && SetBit(5, 4, 0) == 1 && Signed(1) == 1;
  }

  lemma BitsetAlreadySet()
    ensures Bitset(7, 0, 1) == 7
  {
    assert Bits(7) == 7 && Mask(0) == 1 && SetBit(7, 1, 1) == 7 && Signed(7) == 7;
  }

  lemma BitsetClearsOneOfSeveral()
    ensures Bitset(12, 2, 0) == 8
  {
    assert Bits(12) == 12 && Mask(2) == 4 && SetBit(12, 4, 0) == 8 && Signed(8) == 8;
  }

  lemma BitsetSetsLowestBit()
    ensures Bitset(4, 0, 1) == 5
  {
    assert Bits(4) == 4 && Mask(0) == 1 && SetBit(4, 1, 1) == 5 && Signed(5) == 5;
  }

  lemma BitsetSetsBit30()
    ensures Bitset(0, 30, 1) == 0x4000_0000
  {
    assert Bits(0) == 0 && Mask(30) == 0x4000_0000;
  }

  /** The shift count wraps at 32, and bit 31 makes the int32 result negative. */
  lemma BitsetShiftWraps()
    ensures Bitset(0, 33, 1) == 2
  {
    assert Bits(0) == 0;
    assert Mask(33) == 2;
  }

  lemma BitsetSignBit()
    ensures Bitset(0, 31, 1) == -0x8000_0000
  {
    assert Bits(0) == 0;
    assert Mask(31) == 0x8000_0000;
  }
}
