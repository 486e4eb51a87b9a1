// transpose, transpose_nth_dim and permute of the MATLAB-compatibility
// library. Each is specified by a function on values and stated, for a
// regular array, by where every element ends up (`At` of a path).

module MatlabPermute {
  import opened JsValues
  import opened Matlab
  import opened MatlabLayout

  /** `s` with the entries at j and j + 1 exchanged. */
  function SwapAt<T>(s: seq<T>, j: nat): (r: seq<T>)
    requires j + 1 < |s|
    ensures |r| == |s| && r[j] == s[j + 1] && r[j + 1] == s[j]
    ensures forall k :: 0 <= k < |s| && k != j && k != j + 1 ==> r[k] == s[k]
  {
    s[j := s[j + 1]][j + 1 := s[j]]
  }

  lemma SwapTwice<T>(s: seq<T>, j: nat)
    requires j + 1 < |s|
    ensures SwapAt(SwapAt(s, j), j) == s
  {
  }

  lemma SwapValid(path: seq<nat>, shape: seq<nat>, j: nat)
    requires j + 1 < |shape| && ValidPath(path, shape)
    ensures ValidPath(SwapAt(path, j), SwapAt(shape, j))
  {
  }

  // ----- transpose -----

  /** The transposed rows: entry [j][i] is `rows[i][j]`. */
  function Transposed(rows: seq<Value>, cols: nat): (r: seq<Value>)
    requires cols == 0 || forall i :: 0 <= i < |rows| ==> !Nullish(rows[i])
    ensures |r| == cols
  {
    seq(cols, j requires 0 <= j < cols =>
      Arr(seq(|rows|, i requires 0 <= i < |rows| => Elem(rows[i], j))))
  }

  /**
   * `transpose(arr)`: `arr.length` throws on null or undefined; anything
   * whose element 0 is not an array comes back unchanged; otherwise the
   * result has `arr[0].length` rows of `arr.length` entries, and reading
   * `arr[i][j]` throws once a row is null or undefined.
   */
  function TransposeSpec(arr: Value): (r: Outcome<Value>)
    ensures r.Err? ==> r.error == TypeError
  {
    if Nullish(arr) then Err(TypeError)
    else if !(arr.Arr? && |arr.items| > 0 && arr.items[0].Arr?) then Ok(arr)
    else
      var rows := arr.items;
      var cols := |rows[0].items|;
      if cols > 0 && exists i :: 0 <= i < |rows| && Nullish(rows[i]) then Err(TypeError)
      else Ok(Arr(Transposed(rows, cols)))
  }

  method Transpose(arr: Value) returns (r: Outcome<Value>)
    ensures r == TransposeSpec(arr)
  {
    if Nullish(arr) {
      return Err(TypeError);
    }
    if !(arr.Arr? && |arr.items| > 0 && arr.items[0].Arr?) {
      return Ok(arr);
    }
    var rows := arr.items;
    var count := |rows|;
    var cols := |rows[0].items|;
    var transposed: seq<seq<Value>> := seq(cols, _ => seq(count, _ => Num(0.0)));
    var i := 0;
    while i < count
      invariant 0 <= i <= count
      invariant cols > 0 ==> forall k :: 0 <= k < i ==> !Nullish(rows[k])
      invariant |transposed| == cols
      invariant forall j :: 0 <= j < cols ==> |transposed[j]| == count
      invariant forall j, k :: 0 <= j < cols && 0 <= k < i ==> transposed[j][k] == Elem(rows[k], j)
      invariant forall j, k :: 0 <= j < cols && i <= k < count ==> transposed[j][k] == Num(0.0)
    {
      var j := 0;
      while j < cols
        invariant 0 <= j <= cols
        invariant j > 0 ==> !Nullish(rows[i])
        invariant |transposed| == cols
        invariant forall c :: 0 <= c < cols ==> |transposed[c]| == count
        invariant forall c, k :: 0 <= c < cols && 0 <= k < i ==> transposed[c][k] == Elem(rows[k], c)
        invariant forall c, k :: 0 <= c < cols && i < k < count ==> transposed[c][k] == Num(0.0)
        invariant forall c :: 0 <= c < j ==> transposed[c][i] == Elem(rows[i], c)
        invariant forall c :: j <= c < cols ==> transposed[c][i] == Num(0.0)
      {
        if Nullish(rows[i]) {
          return Err(TypeError);
        }
        transposed := transposed[j := transposed[j][i := Elem(rows[i], j)]];
        j := j + 1;
      }
      i := i + 1;
    }
    var result := seq(cols, j requires 0 <= j < cols => Arr(transposed[j]));
    assert result == Transposed(rows, cols) by {
      forall j | 0 <= j < cols ensures result[j] == Transposed(rows, cols)[j] {
        assert transposed[j] == seq(count, k requires 0 <= k < count => Elem(rows[k], j));
      }
    }
    r := Ok(Arr(result));
  }

  /** transpose of an m-by-n (by rest) array, m at least 1, is n-by-m (by rest). */
  lemma TransposeShape(v: Value, m: nat, n: nat, rest: seq<nat>)
    requires m >= 1 && HasShape(v, [m, n] + rest)
    ensures TransposeSpec(v).Ok?
    ensures HasShape(TransposeSpec(v).value, [n, m] + rest)
  {
    var rows := v.items;
    assert ([m, n] + rest)[1..] == [n] + rest;
    assert ([n] + rest)[1..] == rest;
    assert forall i :: 0 <= i < m ==> HasShape(rows[i], [n] + rest);
    var w := TransposeSpec(v).value;
    assert w == Arr(Transposed(rows, n));
    forall j | 0 <= j < n ensures HasShape(w.items[j], [m] + rest) {
      assert ([m] + rest)[1..] == rest;
      forall i | 0 <= i < m ensures HasShape(w.items[j].items[i], rest) {
        assert w.items[j].items[i] == rows[i].items[j];
      }
    }
    assert ([n, m] + rest)[1..] == [m] + rest;
  }

  /** Element [j][i]... of the transpose is element [i][j]... of the input. */
  lemma TransposeAt(v: Value, m: nat, n: nat, rest: seq<nat>, path: seq<nat>)
    requires m >= 1 && HasShape(v, [m, n] + rest)
    requires ValidPath(path, [n, m] + rest)
    ensures TransposeSpec(v).Ok?
    ensures At(TransposeSpec(v).value, path) == At(v, SwapAt(path, 0))
  {
    TransposeShape(v, m, n, rest);
    var rows := v.items;
    var j, i := path[0], path[1];
    assert ([m, n] + rest)[1..] == [n] + rest;
    assert HasShape(rows[i], [n] + rest);
    var w := TransposeSpec(v).value;
    assert w == Arr(Transposed(rows, n));
    assert w.items[j].items[i] == rows[i].items[j];
    var p := path[2..];
    var sw := SwapAt(path, 0);
    assert path[1..][1..] == p && sw[1..][1..] == p;
  }

  /** Transposing an m-by-n array with m, n at least 1 twice gives it back. */
  lemma TransposeTwice(v: Value, m: nat, n: nat, rest: seq<nat>)
    requires m >= 1 && n >= 1 && HasShape(v, [m, n] + rest)
    ensures TransposeSpec(v).Ok?
    ensures TransposeSpec(TransposeSpec(v).value) == Ok(v)
  {
    TransposeShape(v, m, n, rest);
    var w := TransposeSpec(v).value;
    TransposeShape(w, n, m, rest);
    var u := TransposeSpec(w).value;
    var shape: seq<nat> := [m, n] + rest;
    forall path: seq<nat> | ValidPath(path, shape) ensures At(u, path) == At(v, path) {
      TransposeAt(w, n, m, rest, path);
      SwapValid(path, shape, 0);
      TransposeAt(v, m, n, rest, SwapAt(path, 0));
      SwapTwice(path, 0);
    }
    ShapeExtensionality(u, v, shape);
  }

  // ----- transpose_nth_dim -----

  /** The results of a loop that stops at the first exception. */
  function CollectOk(rs: seq<Outcome<Value>>): (r: Outcome<seq<Value>>)
    ensures r.Ok? <==> forall i :: 0 <= i < |rs| ==> rs[i].Ok?
    ensures r.Ok? ==> |r.value| == |rs| && forall i :: 0 <= i < |rs| ==> r.value[i] == rs[i].value
    ensures forall i :: 0 <= i < |rs| && rs[i].Err? && (forall k :: 0 <= k < i ==> rs[k].Ok?) ==>
      r == Err(rs[i].error)
  {
    if rs == [] then Ok([])
    else if rs[0].Err? then Err(rs[0].error)
    else
      var tail :- CollectOk(rs[1..]);
      Ok([rs[0].value] + tail)
  }

  /**
   * `transpose_nth_dim(arr, n)`: transpose at nesting level n, by replacing
   * each element of `arr` with its transpose at level n - 1. Reading the
   * length of null or undefined throws; numbers and booleans have no length
   * and come back unchanged; assigning into a non-empty string throws (the
   * module code is strict).
   */
  function TransposeNthDimSpec(arr: Value, n: nat): (r: Outcome<Value>)
    decreases arr
  {
    if n == 0 then TransposeSpec(arr)
    else
      match arr
      case Null => Err(TypeError)
      case Undefined => Err(TypeError)
      case Str(s) => if s == "" then Ok(arr) else Err(TypeError)
      case Arr(items) =>
        var out :- CollectOk(seq(|items|, i requires 0 <= i < |items| => TransposeNthDimSpec(items[i], n - 1)));
        Ok(Arr(out))
      case _ => Ok(arr)
  }

  method TransposeNthDim(arr: Value, n: nat) returns (r: Outcome<Value>)
    ensures r == TransposeNthDimSpec(arr, n)
    decreases arr, 1
  {
    if n == 0 {
      r := Transpose(arr);
      return;
    }
    match arr {
      case Null => return Err(TypeError);
      case Undefined => return Err(TypeError);
      case Str(s) =>
        if s == "" {
          return Ok(arr);
        }
        return Err(TypeError);
      case Arr(items) =>
        var out := TransposeEach(items, n - 1);
        if out.Err? {
          return Err(out.error);
        }
        return Ok(Arr(out.value));
      case _ => return Ok(arr);
    }
  }

  /** The loop of transpose_nth_dim over the elements of an array, stopping at the first exception. */
  method TransposeEach(items: seq<Value>, n: nat) returns (r: Outcome<seq<Value>>)
    ensures r == CollectOk(seq(|items|, i requires 0 <= i < |items| => TransposeNthDimSpec(items[i], n)))
    decreases Arr(items), 0
  {
    ghost var rs := seq(|items|, i requires 0 <= i < |items| => TransposeNthDimSpec(items[i], n));
    var out: seq<Value> := [];
    var i := 0;
    while i < |items|
      invariant 0 <= i <= |items|
      invariant |out| == i
      invariant forall k :: 0 <= k < i ==> rs[k] == Ok(out[k])
    {
      var x := TransposeNthDim(items[i], n);
      assert x == rs[i];
      if x.Err? {
        return Err(x.error);
      }
      out := out + [x.value];
      i := i + 1;
    }
    assert CollectOk(rs).Ok?;
    assert CollectOk(rs).value == out;
    return Ok(out);
  }

  /**
   * On a regular array with no empty level, transpose_nth_dim(_, j)
   * exchanges the lengths of levels j and j + 1.
   */
  lemma {:induction false} TransposeNthDimShape(v: Value, shape: seq<nat>, j: nat)
    requires j + 1 < |shape| && HasShape(v, shape)
    requires forall k :: 0 <= k < |shape| ==> shape[k] >= 1
    ensures TransposeNthDimSpec(v, j).Ok?
    ensures HasShape(TransposeNthDimSpec(v, j).value, SwapAt(shape, j))
    decreases v, 1
  {
    if j == 0 {
      assert shape == [shape[0], shape[1]] + shape[2..];
      TransposeShape(v, shape[0], shape[1], shape[2..]);
      assert SwapAt(shape, 0) == [shape[1], shape[0]] + shape[2..];
    } else {
      TransposeNthDimItems(v, shape, j);
      var w := TransposeNthDimSpec(v, j).value;
      forall i | 0 <= i < |w.items|
        ensures HasShape(w.items[i], SwapAt(shape[1..], j - 1))
      {
        TransposeNthDimShape(v.items[i], shape[1..], j - 1);
      }
      assert SwapAt(shape, j)[1..] == SwapAt(shape[1..], j - 1);
    }
  }

  /** Above level 0, the result holds the transposes of the elements, one level down. */
  lemma {:induction false} TransposeNthDimItems(v: Value, shape: seq<nat>, j: nat)
    requires 0 < j && j + 1 < |shape| && HasShape(v, shape)
    requires forall k :: 0 <= k < |shape| ==> shape[k] >= 1
    ensures TransposeNthDimSpec(v, j).Ok? && TransposeNthDimSpec(v, j).value.Arr?
    ensures |TransposeNthDimSpec(v, j).value.items| == |v.items|
    ensures forall i :: 0 <= i < |v.items| ==>
      TransposeNthDimSpec(v.items[i], j - 1).Ok? &&
      TransposeNthDimSpec(v, j).value.items[i] == TransposeNthDimSpec(v.items[i], j - 1).value
    decreases v, 0
  {
    var items := v.items;
    var rs := seq(|items|, i requires 0 <= i < |items| => TransposeNthDimSpec(items[i], j - 1));
    forall i | 0 <= i < |items|
      ensures rs[i].Ok?
    {
      TransposeNthDimShape(items[i], shape[1..], j - 1);
    }
    var out := CollectOk(rs).value;
    assert TransposeNthDimSpec(v, j) == Ok(Arr(out));
    forall i | 0 <= i < |items|
      ensures TransposeNthDimSpec(items[i], j - 1).Ok? && out[i] == TransposeNthDimSpec(items[i], j - 1).value
    {
      assert rs[i] == TransposeNthDimSpec(items[i], j - 1);
    }
  }

  /** ...and the element at a path of the result is the element at the path with entries j and j + 1 exchanged. */
  lemma {:induction false} TransposeNthDimAt(v: Value, shape: seq<nat>, j: nat, path: seq<nat>)
    requires j + 1 < |shape| && HasShape(v, shape)
    requires forall k :: 0 <= k < |shape| ==> shape[k] >= 1
    requires ValidPath(path, SwapAt(shape, j))
    ensures TransposeNthDimSpec(v, j).Ok?
    ensures At(TransposeNthDimSpec(v, j).value, path) == At(v, SwapAt(path, j))
  {
    TransposeNthDimShape(v, shape, j);
    if j == 0 {
      assert shape == [shape[0], shape[1]] + shape[2..];
      assert SwapAt(shape, 0) == [shape[1], shape[0]] + shape[2..];
      TransposeAt(v, shape[0], shape[1], shape[2..], path);
    } else {
      TransposeNthDimItems(v, shape, j);
      var i := path[0];
      assert SwapAt(shape, j)[1..] == SwapAt(shape[1..], j - 1);
      assert ValidPath(path[1..], SwapAt(shape[1..], j - 1));
      TransposeNthDimAt(v.items[i], shape[1..], j - 1, path[1..]);
      var sw := SwapAt(path, j);
      assert sw[0] == i && sw[1..] == SwapAt(path[1..], j - 1);
    }
  }

  // ----- the validity check of permute -----

  /** Code-unit order on strings, as the default `Array.prototype.sort` compares. */
  predicate StrLe(a: string, b: string)
  {
    if a == [] then true
    else if b == [] then false
    else if a[0] != b[0] then a[0] < b[0]
    else StrLe(a[1..], b[1..])
  }

  lemma {:induction false} StrLeTotal(a: string, b: string)
    ensures StrLe(a, b) || StrLe(b, a)
  {
    if a != [] && b != [] && a[0] == b[0] {
      StrLeTotal(a[1..], b[1..]);
    }
  }

  /** The default sort compares numbers by their decimal text. */
  predicate KeyLe(x: int, y: int)
  {
    StrLe(IntToString(x), IntToString(y))
  }

  predicate KeySorted(s: seq<int>)
  {
    forall i :: 0 <= i < |s| - 1 ==> KeyLe(s[i], s[i + 1])
  }

  function Insert(x: int, s: seq<int>): (r: seq<int>)
    ensures |r| == |s| + 1
  {
    if s == [] then [x]
    else if KeyLe(x, s[0]) then [x] + s
    else [s[0]] + Insert(x, s[1..])
  }

  /**
   * `order.sort()` without a comparator, by insertion on the decimal texts.
   * The texts of distinct integers are distinct, so every sorting algorithm
   * produces this same sequence.
   */
  function DefaultSort(s: seq<int>): (r: seq<int>)
    ensures |r| == |s|
  {
    if s == [] then [] else Insert(s[0], DefaultSort(s[1..]))
  }

  lemma {:induction false} InsertMultiset(x: int, s: seq<int>)
    ensures multiset(Insert(x, s)) == multiset(s) + multiset{x}
  {
    if s != [] {
      InsertMultiset(x, s[1..]);
      InsertStep(x, s);
      ConsMultiset(x, s, Insert(x, s[1..]), Insert(x, s));
    }
  }

  lemma ConsMultiset(x: int, s: seq<int>, t: seq<int>, r: seq<int>)
    requires s != [] && multiset(t) == multiset(s[1..]) + multiset{x}
    requires r == [x] + s || r == [s[0]] + t
    ensures multiset(r) == multiset(s) + multiset{x}
  {
    assert s == [s[0]] + s[1..];
  }

  lemma InsertStep(x: int, s: seq<int>)
    requires s != []
    ensures Insert(x, s) == [x] + s || Insert(x, s) == [s[0]] + Insert(x, s[1..])
  {
  }

  lemma {:induction false} InsertSorted(x: int, s: seq<int>)
    requires KeySorted(s)
    ensures KeySorted(Insert(x, s))
    ensures Insert(x, s)[0] == x || (s != [] && Insert(x, s)[0] == s[0])
  {
    if s != [] && !KeyLe(x, s[0]) {
      StrLeTotal(IntToString(x), IntToString(s[0]));
      var tail := s[1..];
      assert KeySorted(tail) by {
        forall i | 0 <= i < |tail| - 1 ensures KeyLe(tail[i], tail[i + 1]) {
          assert tail[i] == s[i + 1] && tail[i + 1] == s[i + 2];
        }
      }
      InsertSorted(x, tail);
      var t := Insert(x, tail);
      assert KeyLe(s[0], t[0]) by {
        if t[0] != x {
          assert t[0] == s[1];
        }
      }
      var u := [s[0]] + t;
      assert Insert(x, s) == u;
      forall i | 0 <= i < |u| - 1 ensures KeyLe(u[i], u[i + 1]) {
        if i > 0 {
          assert u[i] == t[i - 1] && u[i + 1] == t[i];
        }
      }
    }
  }

  /** The sorted copy holds the same numbers, in ascending order of their texts. */
  lemma {:induction false} DefaultSortFacts(s: seq<int>)
    ensures multiset(DefaultSort(s)) == multiset(s)
    ensures KeySorted(DefaultSort(s))
  {
    if s != [] {
      DefaultSortFacts(s[1..]);
      InsertMultiset(s[0], DefaultSort(s[1..]));
      InsertSorted(s[0], DefaultSort(s[1..]));
      assert s == [s[0]] + s[1..];
    }
  }

  lemma DigitCode(d: nat)
    requires d < 10
    ensures DigitChar(d) as int == '0' as int + d
  {
    if d == 0 {} else if d == 1 {} else if d == 2 {} else if d == 3 {} else if d == 4 {}
    else if d == 5 {} else if d == 6 {} else if d == 7 {} else if d == 8 {} else {}
  }

  /** On single digits, text order is numeric order. */
  lemma KeyLeDigits(x: int, y: int)
    requires 0 <= x < 10 && 0 <= y < 10
    ensures KeyLe(x, y) <==> x <= y
  {
    DigitCode(x);
    DigitCode(y);
    var a, b := IntToString(x), IntToString(y);
    assert a == [DigitChar(x)] && b == [DigitChar(y)];
    if x == y {
      assert a[1..] == [] && StrLe(a[1..], b[1..]);
    } else {
      assert a[0] != b[0];
      assert StrLe(a, b) <==> a[0] < b[0];
    }
  }

  /** A sorted sequence that is a rearrangement of 0, ..., n-1 is 0, ..., n-1. */
  lemma {:induction false} SortedPermutationIsRange(r: seq<int>)
    requires multiset(r) == multiset(Range(|r|))
    requires forall i, j :: 0 <= i <= j < |r| ==> r[i] <= r[j]
    ensures r == Range(|r|)
  {
    var n := |r|;
    if n > 0 {
      LastOfSortedRange(r);
      RangeWithoutLast(r);
      SortedPermutationIsRange(r[..n - 1]);
      assert r == r[..n - 1] + [n - 1];
    }
  }

  /** Its last element is the largest one, n - 1. */
  lemma LastOfSortedRange(r: seq<int>)
    requires |r| > 0 && multiset(r) == multiset(Range(|r|))
    requires forall i, j :: 0 <= i <= j < |r| ==> r[i] <= r[j]
    ensures r[|r| - 1] == |r| - 1
  {
    var n := |r|;
    var last := r[n - 1];
    assert last in multiset(Range(n));
    assert last < n;
    assert Range(n)[n - 1] == n - 1;
    assert (n - 1) in multiset(r);
    var k :| 0 <= k < n && r[k] == n - 1;
  }

  lemma RangeWithoutLast(r: seq<int>)
    requires |r| > 0 && multiset(r) == multiset(Range(|r|)) && r[|r| - 1] == |r| - 1
    ensures multiset(r[..|r| - 1]) == multiset(Range(|r| - 1))
  {
    var n := |r|;
    assert r == r[..n - 1] + [n - 1];
    assert Range(n) == Range(n - 1) + [n - 1];
    assert multiset(r) == multiset(r[..n - 1]) + multiset{n - 1};
    assert multiset(Range(n)) == multiset(Range(n - 1)) + multiset{n - 1};
    var a, b := multiset(r[..n - 1]), multiset(Range(n - 1));
    assert a + multiset{n - 1} == b + multiset{n - 1};
    forall y ensures a[y] == b[y] {
      assert (a + multiset{n - 1})[y] == (b + multiset{n - 1})[y];
    }
  }

  /** The numbers as an array value, as `isequal` receives them. */
  function NumArray(s: seq<int>): (v: Value)
    ensures v.Arr? && IsNumeric(v)
  {
    Arr(seq(|s|, i requires 0 <= i < |s| => Num(s[i] as real)))
  }

  lemma NumArrayEqual(a: seq<int>, b: seq<int>)
    ensures IsEqual(NumArray(a), NumArray(b)) <==> a == b
  {
    IsEqualNumericArrays(NumArray(a), NumArray(b));
    if NumArray(a) == NumArray(b) {
      assert |a| == |NumArray(a).items| == |b|;
      forall i | 0 <= i < |a| ensures a[i] == b[i] {
        assert NumArray(a).items[i] == NumArray(b).items[i];
      }
    }
  }

  /** An ORDER that passes both checks of permute. */
  predicate ValidOrder(order: seq<int>)
  {
    multiset(order) == multiset(Range(|order|)) && |order| <= 10
  }

  /** Three distinct entries that are 0, 1 and 2 make a valid order. */
  lemma OrderOfThree(a: int, b: int, c: int)
    requires {a, b, c} == {0, 1, 2} && a != b && b != c && a != c
    ensures ValidOrder([a, b, c])
  {
    assert Range(3) == [0, 1, 2];
    assert multiset([a, b, c]) == multiset{a, b, c};
  }

  lemma Ten()
    ensures IntToString(9) == "9" && IntToString(10) == "10"
  {
    assert NatToString(10) == NatToString(1) + [DigitChar(0)];
  }

  /**
   * For an ORDER without repeats, the string-sorted copy equals 0, ..., n-1
   * exactly when ORDER is a rearrangement of 0, ..., n-1 with n at most 10:
   * from 11 entries on, "10" sorts before "2".
   */
  lemma SortCheck(order: seq<int>)
    ensures IsEqual(NumArray(DefaultSort(order)), NumArray(Range(|order|))) <==> ValidOrder(order)
  {
    var n := |order|;
    var r := DefaultSort(order);
    NumArrayEqual(r, Range(n));
    DefaultSortFacts(order);
    if r == Range(n) && n > 10 {
      assert KeyLe(r[9], r[10]);
      Ten();
      assert false;
    }
    if ValidOrder(order) {
      SortedValidOrder(order);
    }
  }

  /** A valid ORDER sorts, by the string order, to 0, ..., n-1. */
  lemma SortedValidOrder(order: seq<int>)
    requires ValidOrder(order)
    ensures DefaultSort(order) == Range(|order|)
  {
    var n := |order|;
    var r := DefaultSort(order);
    DefaultSortFacts(order);
    forall i | 0 <= i < n ensures 0 <= r[i] < n {
      assert r[i] in multiset(Range(n));
    }
    forall i | 0 <= i < n - 1 ensures r[i] <= r[i + 1] {
      KeyLeDigits(r[i], r[i + 1]);
    }
    AdjacentToGlobal(r);
    SortedPermutationIsRange(r);
  }

  lemma {:induction false} AdjacentToGlobal(r: seq<int>)
    requires forall i :: 0 <= i < |r| - 1 ==> r[i] <= r[i + 1]
    ensures forall i, j :: 0 <= i <= j < |r| ==> r[i] <= r[j]
  {
    if |r| > 1 {
      AdjacentToGlobal(r[1..]);
      forall j | 0 <= j < |r| ensures r[0] <= r[j] {
        if j > 0 {
          assert r[1..][j - 1] == r[j];
          assert r[0] <= r[1] && r[1] == r[1..][0];
        }
      }
      forall i, j | 0 < i <= j < |r| ensures r[i] <= r[j] {
        assert r[i] == r[1..][i - 1] && r[j] == r[1..][j - 1];
      }
    }
  }

  // ----- permute -----

  const RepeatedIndexMessage := "ORDER cannot contain repeated permutation indices."
  const InvalidIndexMessage := "ORDER contains an invalid permutation index."

  /** The position in `order` of each of 0, ..., |order|-1: the level each output level comes from. */
  function Inverse(order: seq<int>): (r: seq<nat>)
    requires ValidOrder(order)
    ensures |r| == |order|
    ensures forall k :: 0 <= k < |order| ==> r[k] < |order| && order[r[k]] == k
  {
    seq(|order|, k requires 0 <= k < |order| => InValidOrder(order, k); FirstIndex(order, k))
  }

  lemma InValidOrder(order: seq<int>, k: nat)
    requires ValidOrder(order) && k < |order|
    ensures k in order
  {
    assert Range(|order|)[k] == k;
    assert k in multiset(Range(|order|));
  }

  /**
   * Where permute moves a path: level p of the input becomes level
   * order[p] of the output; levels past |order| stay where they are.
   */
  function PermutePath(p: seq<nat>, order: seq<int>): (r: seq<nat>)
    requires |order| <= |p|
    ensures |r| == |p|
  {
    seq(|p|, k requires 0 <= k < |p| =>
      if k < |order| && k in order then p[FirstIndex(order, k)] else p[k])
  }

  lemma ValidNoDuplicates(order: seq<int>)
    requires ValidOrder(order)
    ensures NoDuplicates(order)
  {
    var n := |order|;
    forall a, b | 0 <= a < b < n ensures order[a] != order[b] {
      if order[a] == order[b] {
        var x := order[a];
        assert x in multiset(Range(n));
        assert 0 <= x < n;
        assert Range(n)[x] == x;
        CountOne(Range(n), x);
        CountTwo(order, a, b);
      }
    }
  }

  lemma {:induction false} CountOne(s: seq<int>, x: int)
    requires NoDuplicates(s)
    ensures multiset(s)[x] <= 1
  {
    if s != [] {
      var t := s[1..];
      assert s == [s[0]] + t;
      assert NoDuplicates(t) by {
        forall i, j | 0 <= i < j < |t| ensures t[i] != t[j] {
          assert t[i] == s[i + 1] && t[j] == s[j + 1];
        }
      }
      CountOne(t, x);
      if s[0] == x {
        assert x !in t by {
          forall i | 0 <= i < |t| ensures t[i] != x {
            assert t[i] == s[i + 1];
          }
        }
      }
    }
  }

  lemma CountTwo(s: seq<int>, a: nat, b: nat)
    requires a < b < |s| && s[a] == s[b]
    ensures multiset(s)[s[a]] >= 2
  {
    assert s == s[..a] + [s[a]] + s[a + 1..b] + [s[b]] + s[b + 1..];
  }

  /** Level q of the input lands at level order[q]. */
  lemma PermutePathMoves(p: seq<nat>, order: seq<int>, q: nat)
    requires ValidOrder(order) && |order| <= |p| && q < |order|
    ensures 0 <= order[q] < |p| && PermutePath(p, order)[order[q]] == p[q]
  {
    ValidNoDuplicates(order);
    var k := order[q];
    assert k in multiset(Range(|order|));
    assert FirstIndex(order, k) == q;
  }

  lemma PermutePathValid(ip: seq<nat>, shape: seq<nat>, order: seq<int>)
    requires |order| <= |shape| && ValidPath(ip, shape)
    ensures ValidPath(PermutePath(ip, order), PermutePath(shape, order))
  {
  }

  /** Permuting with the inverse order undoes a permutation. */
  lemma PermutePathInverse(p: seq<nat>, order: seq<int>)
    requires ValidOrder(order) && |order| <= |p|
    ensures PermutePath(PermutePath(p, order), Inverse(order)) == p
  {
    ValidNoDuplicates(order);
    var n := |order|;
    var inv := Inverse(order);
    var mid := PermutePath(p, order);
    forall k | 0 <= k < |p| ensures PermutePath(mid, inv)[k] == p[k] {
      if k < n {
        var x := order[k];
        assert x in multiset(Range(n));
        assert 0 <= x < n;
        assert FirstIndex(order, x) == k;
        assert inv[x] == k;
        assert FirstIndex(inv, k) == x by {
          var f := FirstIndex(inv, k);
          assert order[inv[f]] == f && inv[f] == k;
        }
        PermutePathMoves(p, order, k);
      }
    }
  }

  /** `w` is `v` permuted by `order`: its shape and every element as permute leaves them. */
  ghost predicate IsPermuted(w: Value, v: Value, shape: seq<nat>, order: seq<int>)
    requires |order| <= |shape|
  {
    HasShape(w, PermutePath(shape, order)) &&
    forall ip: seq<nat> :: ValidPath(ip, shape) ==> At(w, PermutePath(ip, order)) == At(v, ip)
  }

  /** permute(permute(v, order), inverse of order) is v. */
  lemma PermuteInverse(v: Value, w: Value, u: Value, shape: seq<nat>, order: seq<int>)
    requires ValidOrder(order) && |order| <= |shape| && HasShape(v, shape)
    requires IsPermuted(w, v, shape, order)
    requires IsPermuted(u, w, PermutePath(shape, order), Inverse(order))
    ensures u == v
  {
    PermutePathInverse(shape, order);
    forall ip: seq<nat> | ValidPath(ip, shape) ensures At(u, ip) == At(v, ip) {
      var jp := PermutePath(ip, order);
      PermutePathValid(ip, shape, order);
      PermutePathInverse(ip, order);
    }
    ShapeExtensionality(u, v, shape);
  }

  /** The shape and positions while sorting: output level k holds input level tau[k]. */
  function Apply(p: seq<nat>, tau: seq<nat>): (r: seq<nat>)
    requires |tau| <= |p| && forall k :: 0 <= k < |tau| ==> tau[k] < |p|
    ensures |r| == |p|
  {
    seq(|p|, k requires 0 <= k < |p| => if k < |tau| then p[tau[k]] else p[k])
  }

  ghost predicate Tracks(tmp: Value, value: Value, shape: seq<nat>, start: seq<int>, current: seq<int>, tau: seq<nat>)
  {
    |start| == |current| == |tau| <= |shape| &&
    (forall k :: 0 <= k < |tau| ==> tau[k] < |start| && current[k] == start[tau[k]]) &&
    (forall k :: 0 <= k < |shape| ==> shape[k] >= 1) &&
    HasShape(tmp, Apply(shape, tau)) &&
    forall ip: seq<nat> :: ValidPath(ip, shape) ==> At(tmp, Apply(ip, tau)) == At(value, ip)
  }

  lemma TracksStart(value: Value, shape: seq<nat>, start: seq<int>)
    requires HasShape(value, shape) && |start| <= |shape|
    requires forall k :: 0 <= k < |shape| ==> shape[k] >= 1
    ensures Tracks(value, value, shape, start, start, seq(|start|, k => k))
  {
    var tau: seq<nat> := seq(|start|, k => k);
    assert Apply(shape, tau) == shape;
    forall ip: seq<nat> | ValidPath(ip, shape) ensures Apply(ip, tau) == ip {
    }
  }

  lemma TracksSwap(tmp: Value, value: Value, shape: seq<nat>, start: seq<int>, current: seq<int>, tau: seq<nat>, j: nat)
    requires Tracks(tmp, value, shape, start, current, tau) && j + 1 < |current|
    ensures TransposeNthDimSpec(tmp, j).Ok?
    ensures Tracks(TransposeNthDimSpec(tmp, j).value, value, shape, start, SwapAt(current, j), SwapAt(tau, j))
  {
    var now := Apply(shape, tau);
    var tau' := SwapAt(tau, j);
    assert Apply(shape, tau') == SwapAt(now, j);
    TransposeNthDimShape(tmp, now, j);
    var w := TransposeNthDimSpec(tmp, j).value;
    forall ip: seq<nat> | ValidPath(ip, shape) ensures At(w, Apply(ip, tau')) == At(value, ip) {
      var before := Apply(ip, tau);
      assert ValidPath(before, now);
      assert Apply(ip, tau') == SwapAt(before, j);
      SwapValid(before, now, j);
      TransposeNthDimAt(tmp, now, j, SwapAt(before, j));
      SwapTwice(before, j);
    }
  }

  lemma TracksEnd(tmp: Value, value: Value, shape: seq<nat>, start: seq<int>, tau: seq<nat>)
    requires NoDuplicates(start)
    requires Tracks(tmp, value, shape, start, Range(|start|), tau)
    ensures IsPermuted(tmp, value, shape, start)
  {
    forall p: seq<nat> | |p| == |shape| ensures Apply(p, tau) == PermutePath(p, start) {
      forall k | 0 <= k < |tau| ensures k in start && FirstIndex(start, k) == tau[k] {
        assert start[tau[k]] == k;
      }
    }
  }

  lemma SwapMultiset(s: seq<int>, j: nat)
    requires j + 1 < |s|
    ensures multiset(SwapAt(s, j)) == multiset(s)
  {
    assert s == s[..j] + [s[j], s[j + 1]] + s[j + 2..];
    assert SwapAt(s, j) == s[..j] + [s[j + 1], s[j]] + s[j + 2..];
  }

  ghost predicate BelowFrom(s: seq<int>, b: nat)
  {
    forall x, y :: 0 <= x < b <= y < |s| ==> s[x] <= s[y]
  }

  ghost predicate SortedFrom(s: seq<int>, b: nat)
  {
    forall x, y :: b <= x <= y < |s| ==> s[x] <= s[y]
  }

  /** What a pass of the sort keeps: the order's contents, the tracking of levels, and "nothing moves" for an identity order. */
  ghost predicate PassInvariant(tmp: Value, value: Value, shape: seq<nat>, start: seq<int>, current: seq<int>, tau: seq<nat>, regular: bool)
  {
    |tau| == |current| && multiset(current) == multiset(start) &&
    (regular ==> Tracks(tmp, value, shape, start, current, tau)) &&
    (start == Range(|start|) ==> current == start && tmp == value)
  }

  lemma PassStep(current: Value, w: Value, value: Value, shape: seq<nat>, start: seq<int>,
                 before: seq<int>, tau: seq<nat>, regular: bool, j: nat)
    requires PassInvariant(current, value, shape, start, before, tau, regular)
    requires j + 1 < |before| && before[j] > before[j + 1]
    requires regular ==> TransposeNthDimSpec(current, j) == Ok(w)
    ensures PassInvariant(w, value, shape, start, SwapAt(before, j), SwapAt(tau, j), regular)
  {
    SwapMultiset(before, j);
    if regular {
      TracksSwap(current, value, shape, start, before, tau, j);
    }
  }

  lemma PassOk(current: Value, value: Value, shape: seq<nat>, start: seq<int>,
               before: seq<int>, tau: seq<nat>, regular: bool, j: nat)
    requires PassInvariant(current, value, shape, start, before, tau, regular)
    requires j + 1 < |before|
    ensures regular ==> TransposeNthDimSpec(current, j).Ok?
  {
    if regular {
      TracksSwap(current, value, shape, start, before, tau, j);
    }
  }

  lemma SwapOrderFacts(before: seq<int>, j: nat, b: nat)
    requires j + 1 < b <= |before| && before[j] > before[j + 1]
    requires forall x :: 0 <= x < j ==> before[x] <= before[j]
    requires BelowFrom(before, b) && SortedFrom(before, b)
    ensures forall x :: 0 <= x < j + 1 ==> SwapAt(before, j)[x] <= SwapAt(before, j)[j + 1]
    ensures BelowFrom(SwapAt(before, j), b) && SortedFrom(SwapAt(before, j), b)
  {
  }

  lemma KeepOrderFacts(s: seq<int>, j: nat, b: nat)
    requires j + 1 < b <= |s| && s[j] <= s[j + 1]
    requires forall x :: 0 <= x < j ==> s[x] <= s[j]
    ensures forall x :: 0 <= x < j + 1 ==> s[x] <= s[j + 1]
  {
  }

  lemma PassEndFacts(s: seq<int>, b: nat)
    requires 1 <= b <= |s|
    requires forall x :: 0 <= x < b - 1 ==> s[x] <= s[b - 1]
    requires BelowFrom(s, b) && SortedFrom(s, b)
    ensures BelowFrom(s, b - 1) && SortedFrom(s, b - 1)
  {
  }

  /**
   * One pass of the bubble sort over order[0..b): exchanges each pair out of
   * order, transposing the matching levels, so that order[b-1] ends up the
   * largest of order[0..b).
   */
  method SortPass(tmp: Value, order: array<int>, b: nat, ghost value: Value, ghost shape: seq<nat>,
                  ghost start: seq<int>, ghost tau: seq<nat>, ghost regular: bool)
    returns (r: Outcome<Value>, ghost tau': seq<nat>)
    requires 1 <= b <= order.Length
    requires PassInvariant(tmp, value, shape, start, order[..], tau, regular)
    requires BelowFrom(order[..], b) && SortedFrom(order[..], b)
    modifies order
    ensures multiset(order[..]) == multiset(start)
    ensures regular || start == Range(|start|) ==> r.Ok?
    ensures r.Ok? ==> PassInvariant(r.value, value, shape, start, order[..], tau', regular)
    ensures r.Ok? ==> BelowFrom(order[..], b - 1) && SortedFrom(order[..], b - 1)
  {
    var current := tmp;
    tau' := tau;
    var j := 0;
    while j < b - 1
      invariant 0 <= j <= b - 1
      invariant PassInvariant(current, value, shape, start, order[..], tau', regular)
      invariant forall x :: 0 <= x < j ==> order[x] <= order[j]
      invariant BelowFrom(order[..], b) && SortedFrom(order[..], b)
    {
      if order[j] > order[j + 1] {
        var x;
        x, tau' := Exchange(current, order, j, b, value, shape, start, tau', regular);
        if x.Err? {
          return Err(x.error), tau';
        }
        current := x.value;
      } else {
        KeepOrderFacts(order[..], j, b);
      }
      j := j + 1;
    }
    PassEndFacts(order[..], b);
    r := Ok(current);
  }

  /**
   * One exchange of the pass: transpose levels j and j + 1 of the array,
   * then swap order[j] and order[j + 1]. A transpose that throws leaves
   * the order as it was.
   */
  method Exchange(current: Value, order: array<int>, j: nat, b: nat, ghost value: Value, ghost shape: seq<nat>,
                  ghost start: seq<int>, ghost tau: seq<nat>, ghost regular: bool)
    returns (x: Outcome<Value>, ghost tau': seq<nat>)
    requires j + 1 < b <= order.Length && order[j] > order[j + 1]
    requires PassInvariant(current, value, shape, start, order[..], tau, regular)
    requires forall y :: 0 <= y < j ==> order[y] <= order[j]
    requires BelowFrom(order[..], b) && SortedFrom(order[..], b)
    modifies order
    ensures x.Err? ==> order[..] == old(order[..]) && tau' == tau && !regular && start != Range(|start|)
    ensures x.Ok? ==> PassInvariant(x.value, value, shape, start, order[..], tau', regular)
    ensures x.Ok? ==> (forall y :: 0 <= y < j + 1 ==> order[y] <= order[j + 1]) &&
                      BelowFrom(order[..], b) && SortedFrom(order[..], b)
  {
    tau' := tau;
    x := TransposeNthDim(current, j);
    PassOk(current, value, shape, start, order[..], tau, regular, j);
    if x.Err? {
      return;
    }
    ghost var before := order[..];
    order[j], order[j + 1] := order[j + 1], order[j];
    assert order[..] == SwapAt(before, j);
    PassStep(current, x.value, value, shape, start, before, tau, regular, j);
    SwapOrderFacts(before, j, b);
    tau' := SwapAt(tau, j);
  }

  /**
   * `permute(array, order)`: rejects a repeated index, then an ORDER whose
   * string-sorted copy is not 0, ..., n-1; then bubble-sorts ORDER in place,
   * transposing levels j and j + 1 of the array at each exchange.
   */
  method Permute(value: Value, order: array<int>, ghost shape: seq<nat>) returns (r: Outcome<Value>)
    modifies order
    ensures !NoDuplicates(old(order[..])) ==>
      r == Err(ErrorObject(RepeatedIndexMessage)) && order[..] == old(order[..])
    ensures NoDuplicates(old(order[..])) && !ValidOrder(old(order[..])) ==>
      r == Err(ErrorObject(InvalidIndexMessage)) && order[..] == old(order[..])
    ensures multiset(order[..]) == multiset(old(order[..]))
    ensures ValidOrder(old(order[..])) && r.Ok? ==> order[..] == Range(order.Length)
    ensures old(order[..]) == Range(order.Length) && order.Length <= 10 ==>
      r == Ok(value) && order[..] == old(order[..])
    ensures ValidOrder(old(order[..])) && HasShape(value, shape) && order.Length <= |shape| &&
            (forall k :: 0 <= k < |shape| ==> shape[k] >= 1) ==>
      r.Ok? && IsPermuted(r.value, value, shape, old(order[..]))
  {
    ghost var start := order[..];
    var n := order.Length;
    UniqueKeepsLength(order[..]);
    if ValidOrder(start) {
      ValidNoDuplicates(start);
    }
    if |Unique(order[..])| != n {
      return Err(ErrorObject(RepeatedIndexMessage));
    }
    var check := DefaultSort(order[..]);
    SortCheck(order[..]);
    if !IsEqual(NumArray(check), NumArray(Range(|check|))) {
      return Err(ErrorObject(InvalidIndexMessage));
    }
    ghost var regular := HasShape(value, shape) && n <= |shape| && forall k :: 0 <= k < |shape| ==> shape[k] >= 1;
    r := SortLevels(value, order, shape, regular);
  }

  /** The bubble sort of permute, on an ORDER that passed both checks. */
  method SortLevels(value: Value, order: array<int>, ghost shape: seq<nat>, ghost regular: bool) returns (r: Outcome<Value>)
    requires ValidOrder(order[..])
    requires regular ==> HasShape(value, shape) && order.Length <= |shape| && forall k :: 0 <= k < |shape| ==> shape[k] >= 1
    modifies order
    ensures multiset(order[..]) == multiset(old(order[..]))
    ensures r.Ok? ==> order[..] == Range(order.Length)
    ensures old(order[..]) == Range(order.Length) ==> r == Ok(value) && order[..] == old(order[..])
    ensures regular ==> r.Ok? && IsPermuted(r.value, value, shape, old(order[..]))
  {
    ghost var start := order[..];
    var n := order.Length;
    ValidNoDuplicates(start);
    ghost var tau: seq<nat> := seq(n, k => k);
    if regular {
      TracksStart(value, shape, start);
    }
    var tmp := value;
    var i := 0;
    while i < n
      invariant 0 <= i <= n
      invariant PassInvariant(tmp, value, shape, start, order[..], tau, regular)
      invariant BelowFrom(order[..], n - i) && SortedFrom(order[..], n - i)
    {
      var x;
      x, tau := SortPass(tmp, order, n - i, value, shape, start, tau, regular);
      if x.Err? {
        return x;
      }
      tmp := x.value;
      i := i + 1;
    }
    SortedPermutationIsRange(order[..]);
    if regular {
      TracksEnd(tmp, value, shape, start, tau);
    }
    r := Ok(tmp);
  }
}
