// The parts of read_image that the two NIfTI loaders (load_untouch_nifti.js and
// load_nifti.js) have in common: the check of the selection lists, the
// clamping of the dimensions, the frames a selective read visits and the
// order it visits them in, the running global minimum and maximum, the update
// of dim[4..7] after a selection, and the loop that strips singleton levels
// from the finished image.

module NiftiImage {
  import opened JsValues
  import opened Bytes
  import opened FileCursor
  import opened Matlab
  import opened MatlabPermute

  /** The fields of `hdr.dime` that read_image reads or writes. */
  datatype ImageDime = ImageDime(datatypeCode: int, bitpix: int, dim: seq<int>, voxOffset: real, glmax: real, glmin: real)

  // ----- number conversion in comparisons -----

  /**
   * The number a relational comparison turns a value into, None standing
   * for NaN. An array goes through its text: [] is "" and so 0, a single
   * element is that element's text (null and undefined print as ""), and
   * two or more elements print with a comma and give NaN. Text is not
   * modelled and gives NaN.
   */
  function NumberOf(v: Value): Option<real>
  {
    match v
    case Num(x) => Some(x)
    case Bool(b) => Some(if b then 1.0 else 0.0)
    case Null => Some(0.0)
    case Arr(items) =>
      if |items| == 0 then Some(0.0)
      else if |items| >= 2 || items[0].Bool? || items[0].Str? then None
      else if Nullish(items[0]) then Some(0.0)
      else NumberOf(items[0])
    case _ => None
  }

  /** An array of two or more elements never compares as a number. */
  lemma LongArrayIsNaN(items: seq<Value>)
    requires |items| >= 2
    ensures NumberOf(Arr(items)) == None
  {
  }

  /** `Math.min(...vs)` for a non-empty list, None standing for NaN. */
  function MathMin(vs: seq<Value>): Option<real>
    requires vs != []
    decreases |vs|
  {
    if |vs| == 1 then NumberOf(vs[0])
    else match (NumberOf(vs[0]), MathMin(vs[1..]))
      case (Some(a), Some(b)) => Some(if a <= b then a else b)
      case _ => None
  }

  /** `Math.max(...vs)` for a non-empty list, None standing for NaN. */
  function MathMax(vs: seq<Value>): Option<real>
    requires vs != []
    decreases |vs|
  {
    if |vs| == 1 then NumberOf(vs[0])
    else match (NumberOf(vs[0]), MathMax(vs[1..]))
      case (Some(a), Some(b)) => Some(if a >= b then a else b)
      case _ => None
  }

  /** Math.min is a number exactly when every element is, and then it is the least of them. */
  lemma {:induction false} MathMinFacts(vs: seq<Value>)
    requires vs != []
    ensures MathMin(vs).Some? <==> forall i :: 0 <= i < |vs| ==> NumberOf(vs[i]).Some?
    ensures MathMin(vs).Some? ==>
      (forall i :: 0 <= i < |vs| ==> MathMin(vs).value <= NumberOf(vs[i]).value) &&
      (exists i :: 0 <= i < |vs| && NumberOf(vs[i]) == MathMin(vs))
    decreases |vs|
  {
    if |vs| > 1 {
      MathMinFacts(vs[1..]);
      assert forall i :: 1 <= i < |vs| ==> vs[i] == vs[1..][i - 1];
      if MathMin(vs).Some? {
        var m := MathMin(vs[1..]).value;
        var j :| 0 <= j < |vs[1..]| && NumberOf(vs[1..][j]) == Some(m);
        assert NumberOf(vs[j + 1]) == Some(m);
      }
    }
  }

  /** Math.max is a number exactly when every element is, and then it is the greatest of them. */
  lemma {:induction false} MathMaxFacts(vs: seq<Value>)
    requires vs != []
    ensures MathMax(vs).Some? <==> forall i :: 0 <= i < |vs| ==> NumberOf(vs[i]).Some?
    ensures MathMax(vs).Some? ==>
      (forall i :: 0 <= i < |vs| ==> NumberOf(vs[i]).value <= MathMax(vs).value) &&
      (exists i :: 0 <= i < |vs| && NumberOf(vs[i]) == MathMax(vs))
    decreases |vs|
  {
    if |vs| > 1 {
      MathMaxFacts(vs[1..]);
      assert forall i :: 1 <= i < |vs| ==> vs[i] == vs[1..][i - 1];
      if MathMax(vs).Some? {
        var m := MathMax(vs[1..]).value;
        var j :| 0 <= j < |vs[1..]| && NumberOf(vs[1..][j]) == Some(m);
        assert NumberOf(vs[j + 1]) == Some(m);
      }
    }
  }

  // ----- check_argin -----

  // The parameter is always called `input`, so `Object.keys({input})[0]`
  // is "input" in every message.
  const NotNumericMessage := "\"input\" should be a numerical array."
  const DuplicateMessage := "Duplicate image index in \"input\""
  const SingleMessage := "\"input\" should be 1."

  function RangeMessage(maxRange: int): string
  {
    "\"input\" should be an integer within the range of [1 ~ " + IntToString(maxRange) + "]."
  }

  /** A comparison `x < b` where x may be NaN. */
  predicate Below(x: Option<real>, b: real)
  {
    x.Some? && x.value < b
  }

  /** A comparison `x > b` where x may be NaN. */
  predicate Above(x: Option<real>, b: real)
  {
    x.Some? && x.value > b
  }

  /**
   * What `new Set` compares an entry of a list by: a number, string or
   * other primitive by its value, an array by its identity. Each array
   * entry of a list is taken to be an object of its own, so it is keyed by
   * its position.
   */
  datatype SetKey = Primitive(value: Value) | Object(position: nat)

  function SetKeys(input: seq<Value>): (r: seq<SetKey>)
    ensures |r| == |input|
    ensures forall i :: 0 <= i < |input| ==> r[i] == if input[i].Arr? then Object(i) else Primitive(input[i])
  {
    seq(|input|, i requires 0 <= i < |input| => if input[i].Arr? then Object(i) else Primitive(input[i]))
  }

  /** A list of arrays holds no repeat for `new Set`, whatever the arrays contain. */
  lemma ArraysNeverRepeat(input: seq<Value>)
    requires forall i :: 0 <= i < |input| ==> input[i].Arr?
    ensures |Unique(SetKeys(input))| == |input|
  {
    UniqueKeepsLength(SetKeys(input));
  }

  /** Two arrays of equal content are not a repeat: `check_argin([[1], [1]])` passes against dim[4] = 1. */
  lemma EqualArraysPass()
    ensures CheckArgin([Arr([Num(1.0)]), Arr([Num(1.0)])], 1) == Ok(())
  {
    var input := [Arr([Num(1.0)]), Arr([Num(1.0)])];
    ArraysNeverRepeat(input);
    assert Matlab.IsNumeric(Arr(input)) by {
      assert Matlab.IsNumeric(input[0]) && Matlab.IsNumeric(input[1]);
    }
    MathMinFacts(input);
    MathMaxFacts(input);
    assert NumberOf(input[0]) == Some(1.0) && NumberOf(input[1]) == Some(1.0);
  }

  /**
   * What `check_argin(input, hdr)` throws, if anything, for a selection
   * list: a non-numeric list, a list with a repeated entry, or a list
   * reaching below 1 or above dim[4]. `maxRange` is hdr.dime.dim[4], for
   * every list.
   */
  function CheckArgin(input: seq<Value>, maxRange: int): Outcome<()>
  {
    if |input| != 0 && !Matlab.IsNumeric(Arr(input)) then Err(Thrown(NotNumericMessage))
    else if |Unique(SetKeys(input))| != |input| then Err(Thrown(DuplicateMessage))
    else if |input| != 0 && (Below(MathMin(input), 1.0) || Above(MathMax(input), maxRange as real)) then
      Err(Thrown(if maxRange == 1 then SingleMessage else RangeMessage(maxRange)))
    else Ok(())
  }

  /** Every value of `xs` lies in [1, maxRange]. */
  predicate InRange(xs: seq<int>, maxRange: int)
  {
    forall i :: 0 <= i < |xs| ==> 1 <= xs[i] <= maxRange
  }

  /**
   * On a list of integers, check_argin passes exactly when the entries are
   * distinct and lie in [1, maxRange]; a repeated entry is reported first,
   * and a range error names maxRange unless it is 1.
   */
  lemma CheckArginIntegers(xs: seq<int>, maxRange: int)
    ensures CheckArgin(Indices(xs), maxRange).Ok? <==> NoDuplicates(xs) && InRange(xs, maxRange)
    ensures !NoDuplicates(xs) ==> CheckArgin(Indices(xs), maxRange) == Err(Thrown(DuplicateMessage))
    ensures NoDuplicates(xs) && !InRange(xs, maxRange) ==>
      CheckArgin(Indices(xs), maxRange) ==
        Err(Thrown(if maxRange == 1 then SingleMessage else RangeMessage(maxRange)))
  {
    IndicesFacts(xs);
    UniqueKeepsLength(SetKeys(Indices(xs)));
    if xs != [] {
      IndicesRange(xs, maxRange);
    }
  }

  lemma IndicesFacts(xs: seq<int>)
    ensures |Indices(xs)| == |xs|
    ensures forall i :: 0 <= i < |xs| ==> Indices(xs)[i] == Num(xs[i] as real) && NumberOf(Indices(xs)[i]) == Some(xs[i] as real)
    ensures Matlab.IsNumeric(Arr(Indices(xs)))
    ensures NoDuplicates(SetKeys(Indices(xs))) <==> NoDuplicates(xs)
  {
    var vs := Indices(xs);
    var keys := SetKeys(vs);
    if NoDuplicates(xs) {
      forall i, j | 0 <= i < j < |keys| ensures keys[i] != keys[j] {
        assert xs[i] != xs[j];
      }
    }
    if NoDuplicates(keys) {
      forall i, j | 0 <= i < j < |xs| ensures xs[i] != xs[j] {
        assert keys[i] != keys[j];
      }
    }
  }

  lemma IndicesRange(xs: seq<int>, maxRange: int)
    requires xs != []
    ensures (Below(MathMin(Indices(xs)), 1.0) || Above(MathMax(Indices(xs)), maxRange as real)) <==> !InRange(xs, maxRange)
  {
    var vs := Indices(xs);
    IndicesFacts(xs);
    MathMinFacts(vs);
    MathMaxFacts(vs);
    var lo := MathMin(vs).value;
    var hi := MathMax(vs).value;
    var a :| 0 <= a < |vs| && NumberOf(vs[a]) == Some(lo);
    var b :| 0 <= b < |vs| && NumberOf(vs[b]) == Some(hi);
    if !InRange(xs, maxRange) {
      var i :| 0 <= i < |xs| && !(1 <= xs[i] <= maxRange);
      assert NumberOf(vs[i]) == Some(xs[i] as real);
    } else {
      assert 1 <= xs[a] && xs[b] <= maxRange;
    }
  }

  /** The lists check_argin looks at on a list of integers. */
  function Indices(xs: seq<int>): seq<Value>
  {
    NumArray(xs).items
  }

  // ----- dimensions -----

  /** `dim.map((d, i) => i === 0 ? d : Math.max(d, 1))`. */
  function Clamped(dim: seq<int>): (r: seq<int>)
    ensures |r| == |dim|
    ensures dim != [] ==> r[0] == dim[0]
    ensures forall i :: 1 <= i < |dim| ==> r[i] >= 1 && (dim[i] >= 1 ==> r[i] == dim[i]) && (dim[i] < 1 ==> r[i] == 1)
  {
    seq(|dim|, i requires 0 <= i < |dim| => if i == 0 then dim[i] else Max(dim[i], 1))
  }

  /** Clamping twice is clamping once. */
  lemma ClampedIdempotent(dim: seq<int>)
    ensures Clamped(Clamped(dim)) == Clamped(dim)
  {
    var c := Clamped(dim);
    assert forall i :: 0 <= i < |dim| ==> Clamped(c)[i] == c[i];
  }

  /** `if (arr.length) hdr.dime.dim[i + 4] = arr.length` for the four lists. */
  function SelectedDims(dim: seq<int>, lengths: seq<nat>): (r: seq<int>)
    requires |dim| == 8 && |lengths| == 4
    ensures |r| == 8 && r[..4] == dim[..4]
    ensures forall k :: 0 <= k < 4 ==> r[4 + k] == (if lengths[k] != 0 then lengths[k] else dim[4 + k])
  {
    dim[..4] + seq(4, k requires 0 <= k < 4 => if lengths[k] != 0 then lengths[k] else dim[4 + k])
  }

  /** Updating the dimensions with the same lengths again changes nothing. */
  lemma SelectedDimsIdempotent(dim: seq<int>, lengths: seq<nat>)
    requires |dim| == 8 && |lengths| == 4
    ensures SelectedDims(SelectedDims(dim, lengths), lengths) == SelectedDims(dim, lengths)
  {
    var once := SelectedDims(dim, lengths);
    var twice := SelectedDims(once, lengths);
    assert forall k :: 0 <= k < 8 ==> twice[k] == once[k] by {
      forall k | 0 <= k < 8 ensures twice[k] == once[k] {
        if k < 4 {
          assert twice[k] == twice[..4][k];
          assert once[k] == once[..4][k];
        }
      }
    }
  }

  /** The length of a list after `arr.length ? arr : Array.from(Array(d).keys())`. */
  function Defaulted(xs: seq<int>, d: nat): (r: seq<int>)
    ensures |xs| != 0 ==> r == xs
    ensures |xs| == 0 ==> |r| == d && forall i :: 0 <= i < d ==> r[i] == i
  {
    if |xs| != 0 then xs else Range(d)
  }

  // ----- frames of a selective read -----

  /** The fourth to seventh subscripts of one frame: t, i5, i6, i7. */
  datatype Subscript = Subscript(t: int, i5: int, i6: int, i7: int)

  /** The innermost loop: every t of the list, for fixed i5, i6, i7. */
  function Row(ts: seq<int>, i5: int, i6: int, i7: int): (r: seq<Subscript>)
    ensures |r| == |ts|
    ensures forall k :: 0 <= k < |ts| ==> r[k] == Subscript(ts[k], i5, i6, i7)
  {
    seq(|ts|, k requires 0 <= k < |ts| => Subscript(ts[k], i5, i6, i7))
  }

  /** The loop over i5 around the loop over t. */
  function Sel5(ts: seq<int>, l5: seq<int>, i6: int, i7: int): seq<Subscript>
    decreases |l5|
  {
    if l5 == [] then [] else Row(ts, l5[0], i6, i7) + Sel5(ts, l5[1..], i6, i7)
  }

  /** The loop over i6 around the loop over i5. */
  function Sel6(ts: seq<int>, l5: seq<int>, l6: seq<int>, i7: int): seq<Subscript>
    decreases |l6|
  {
    if l6 == [] then [] else Sel5(ts, l5, l6[0], i7) + Sel6(ts, l5, l6[1..], i7)
  }

  /** The frames a selective read visits, in visiting order: i7 outermost, t innermost. */
  function Selection(ts: seq<int>, l5: seq<int>, l6: seq<int>, l7: seq<int>): seq<Subscript>
    decreases |l7|
  {
    if l7 == [] then [] else Sel6(ts, l5, l6, l7[0]) + Selection(ts, l5, l6, l7[1..])
  }

  lemma ConcatIndex<T>(h: seq<T>, r: seq<T>, x: int, y: int)
    requires y == x - |h| && 0 <= y < |r|
    ensures (h + r)[x] == r[y]
  {
  }

  lemma ShiftIndex(a: int, n: int, j: int, m: int)
    requires 0 < a < m && 0 <= j < n
    ensures 0 <= (a - 1) * n + j < (m - 1) * n
    ensures (a - 1) * n + j == a * n + j - n
  {
    BlockBound(a - 1, m - 1, n, j);
  }

  lemma BlockStep(a: int, n: int, b: int)
    ensures (a - 1) * n + b == a * n + b - n
  {
  }

  lemma BlockBound(a: int, m: int, n: int, b: int)
    requires 0 <= a < m && 0 <= b < n
    ensures 0 <= a * n + b < m * n
  {
    MulLeMono(a + 1, m, n);
  }

  lemma {:induction false} Sel5Length(ts: seq<int>, l5: seq<int>, i6: int, i7: int)
    ensures |Sel5(ts, l5, i6, i7)| == |l5| * |ts|
    decreases |l5|
  {
    if l5 != [] {
      Sel5Length(ts, l5[1..], i6, i7);
      BlockStep(|l5|, |ts|, 0);
    }
  }

  lemma {:induction false} Sel5At(ts: seq<int>, l5: seq<int>, i6: int, i7: int, a: nat, b: nat)
    requires a < |l5| && b < |ts|
    ensures |Sel5(ts, l5, i6, i7)| == |l5| * |ts| && a * |ts| + b < |l5| * |ts|
    ensures Sel5(ts, l5, i6, i7)[a * |ts| + b] == Subscript(ts[b], l5[a], i6, i7)
    decreases |l5|
  {
    Sel5Length(ts, l5, i6, i7);
    BlockBound(a, |l5|, |ts|, b);
    if a > 0 {
      Sel5At(ts, l5[1..], i6, i7, a - 1, b);
      BlockStep(a, |ts|, b);
    }
  }

  lemma {:induction false} Sel6Length(ts: seq<int>, l5: seq<int>, l6: seq<int>, i7: int, n: nat)
    requires forall x :: |Sel5(ts, l5, x, i7)| == n
    ensures |Sel6(ts, l5, l6, i7)| == |l6| * n
    decreases |l6|
  {
    if l6 != [] {
      Sel6Length(ts, l5, l6[1..], i7, n);
      BlockStep(|l6|, n, 0);
    }
  }

  lemma {:induction false} Sel6At(ts: seq<int>, l5: seq<int>, l6: seq<int>, i7: int, a: nat, j: nat, n: nat)
    requires forall x :: |Sel5(ts, l5, x, i7)| == n
    requires a < |l6| && j < n
    ensures |Sel6(ts, l5, l6, i7)| == |l6| * n && a * n + j < |l6| * n
    ensures Sel6(ts, l5, l6, i7)[a * n + j] == Sel5(ts, l5, l6[a], i7)[j]
    decreases |l6|
  {
    Sel6Length(ts, l5, l6, i7, n);
    BlockBound(a, |l6|, n, j);
    var head := Sel5(ts, l5, l6[0], i7);
    var rest := Sel6(ts, l5, l6[1..], i7);
    assert Sel6(ts, l5, l6, i7) == head + rest;
    if a > 0 {
      Sel6At(ts, l5, l6[1..], i7, a - 1, j, n);
      ShiftIndex(a, n, j, |l6|);
      assert l6[1..][a - 1] == l6[a];
      ConcatIndex(head, rest, a * n + j, (a - 1) * n + j);
    } else {
      assert (head + rest)[j] == head[j];
    }
  }

  lemma {:induction false} SelectionLength(ts: seq<int>, l5: seq<int>, l6: seq<int>, l7: seq<int>, n: nat)
    requires forall x :: |Sel6(ts, l5, l6, x)| == n
    ensures |Selection(ts, l5, l6, l7)| == |l7| * n
    decreases |l7|
  {
    if l7 != [] {
      SelectionLength(ts, l5, l6, l7[1..], n);
      BlockStep(|l7|, n, 0);
    }
  }

  lemma {:induction false} SelectionBlock(ts: seq<int>, l5: seq<int>, l6: seq<int>, l7: seq<int>, a: nat, j: nat, n: nat)
    requires forall x :: |Sel6(ts, l5, l6, x)| == n
    requires a < |l7| && j < n
    ensures |Selection(ts, l5, l6, l7)| == |l7| * n && a * n + j < |l7| * n
    ensures Selection(ts, l5, l6, l7)[a * n + j] == Sel6(ts, l5, l6, l7[a])[j]
    decreases |l7|
  {
    SelectionLength(ts, l5, l6, l7, n);
    BlockBound(a, |l7|, n, j);
    var head := Sel6(ts, l5, l6, l7[0]);
    var rest := Selection(ts, l5, l6, l7[1..]);
    assert Selection(ts, l5, l6, l7) == head + rest;
    if a > 0 {
      SelectionBlock(ts, l5, l6, l7[1..], a - 1, j, n);
      assert l7[1..][a - 1] == l7[a];
      ShiftIndex(a, n, j, |l7|);
      ConcatIndex(head, rest, a * n + j, (a - 1) * n + j);
    } else {
      assert (head + rest)[j] == head[j];
    }
  }

  /** Every block of a level has the same length. */
  lemma BlockLengths(ts: seq<int>, l5: seq<int>, l6: seq<int>)
    ensures forall x, y :: |Sel5(ts, l5, x, y)| == |l5| * |ts|
    ensures forall x :: |Sel6(ts, l5, l6, x)| == |l6| * (|l5| * |ts|)
  {
    forall x, y ensures |Sel5(ts, l5, x, y)| == |l5| * |ts| {
      Sel5Length(ts, l5, x, y);
    }
    forall x ensures |Sel6(ts, l5, l6, x)| == |l6| * (|l5| * |ts|) {
      Sel6Length(ts, l5, l6, x, |l5| * |ts|);
    }
  }

  /** A selective read visits |l7|·|l6|·|l5|·|ts| frames. */
  lemma SelectionCount(ts: seq<int>, l5: seq<int>, l6: seq<int>, l7: seq<int>)
    ensures |Selection(ts, l5, l6, l7)| == |l7| * (|l6| * (|l5| * |ts|))
  {
    BlockLengths(ts, l5, l6);
    SelectionLength(ts, l5, l6, l7, |l6| * (|l5| * |ts|));
  }

  /**
   * The frames a selective read visits, t varying fastest and i7 slowest:
   * frame ((k7·|l6| + k6)·|l5| + k5)·|ts| + kt has the subscripts
   * (ts[kt], l5[k5], l6[k6], l7[k7]).
   */
  lemma SelectionOrder(ts: seq<int>, l5: seq<int>, l6: seq<int>, l7: seq<int>, kt: nat, k5: nat, k6: nat, k7: nat)
    requires kt < |ts| && k5 < |l5| && k6 < |l6| && k7 < |l7|
    ensures 0 <= ((k7 * |l6| + k6) * |l5| + k5) * |ts| + kt < |Selection(ts, l5, l6, l7)|
    ensures Selection(ts, l5, l6, l7)[((k7 * |l6| + k6) * |l5| + k5) * |ts| + kt] == Subscript(ts[kt], l5[k5], l6[k6], l7[k7])
  {
    var n5 := |l5| * |ts|;
    var n6 := |l6| * n5;
    var j5 := k5 * |ts| + kt;
    var j6 := k6 * n5 + j5;
    OrderIndex(kt, k5, k6, k7, |ts|, |l5|, |l6|, |l7|);
    BlockLengths(ts, l5, l6);
    SelectionLength(ts, l5, l6, l7, n6);
    Sel5At(ts, l5, l6[k6], l7[k7], k5, kt);
    Sel6At(ts, l5, l6, l7[k7], k6, j5, n5);
    SelectionBlock(ts, l5, l6, l7, k7, j6, n6);
  }

  lemma OrderIndex(kt: int, k5: int, k6: int, k7: int, mt: int, m5: int, m6: int, m7: int)
    requires 0 <= kt < mt && 0 <= k5 < m5 && 0 <= k6 < m6 && 0 <= k7 < m7
    ensures 0 <= k5 * mt + kt < m5 * mt
    ensures 0 <= k6 * (m5 * mt) + (k5 * mt + kt) < m6 * (m5 * mt)
    ensures 0 <= k7 * (m6 * (m5 * mt)) + (k6 * (m5 * mt) + (k5 * mt + kt)) < m7 * (m6 * (m5 * mt))
    ensures ((k7 * m6 + k6) * m5 + k5) * mt + kt == k7 * (m6 * (m5 * mt)) + (k6 * (m5 * mt) + (k5 * mt + kt))
  {
    BlockBound(k5, m5, mt, kt);
    BlockBound(k6, m6, m5 * mt, k5 * mt + kt);
    BlockBound(k7, m7, m6 * (m5 * mt), k6 * (m5 * mt) + (k5 * mt + kt));
    Expand(k7, m6, k6, m5, k5, mt, kt);
  }

  lemma Expand(k7: int, m6: int, k6: int, m5: int, k5: int, mt: int, kt: int)
    ensures ((k7 * m6 + k6) * m5 + k5) * mt + kt == k7 * (m6 * (m5 * mt)) + (k6 * (m5 * mt) + (k5 * mt + kt))
  {
    assert (k7 * m6 + k6) * m5 == k7 * (m6 * m5) + k6 * m5;
    assert (k7 * (m6 * m5) + k6 * m5 + k5) * mt == k7 * (m6 * m5) * mt + k6 * m5 * mt + k5 * mt;
  }

  /** A selective read with an empty list visits no frame. */
  lemma {:induction false} EmptyListSelectsNothing(ts: seq<int>, l5: seq<int>, l6: seq<int>, l7: seq<int>)
    requires ts == [] || l5 == [] || l6 == [] || l7 == []
    ensures Selection(ts, l5, l6, l7) == []
  {
    SelectionCount(ts, l5, l6, l7);
  }

  // ----- reading frames -----

  /** What read_image settled before reading voxels. */
  datatype Layout = Layout(
    bitpix: int,        // bits per voxel, from the datatype table
    precision: string,  // the FILE tag each voxel is read with
    dim: seq<int>,      // the clamped dimensions
    start: real,        // vox_offset for filetype 2, else 0
    size: int)          // values read per fread

  /** The buffer the cursor was opened on and how it decodes. */
  datatype Source = Source(data: seq<Byte>, littleEndian: bool, fmt: FloatFormat)

  /** The seek target of the frame at linear index `idx`: idx · bitpix / 8 past the start, in real arithmetic. */
  function FramePos(l: Layout, idx: int): real
  {
    (idx * l.bitpix) as real / 8.0 + l.start
  }

  /**
   * One frame of a selective read: seek to
   * sub2ind(dim[1..7], 1, 1, 1, t, i5, i6, i7) · bitpix / 8 past the start
   * and read `size` values.
   */
  function FrameAt(l: Layout, src: Source, s: Subscript): Outcome<Value>
    requires |l.dim| == 8
  {
    var idx :- Sub2indSpec(l.dim[1..], [1, 1, 1, s.t, s.i5, s.i6, s.i7]);
    ReadSpec(Some(src.data), FramePos(l, idx), src.littleEndian, l.size, KindOf(l.precision), src.fmt).0
  }

  /** The frames of a selection in order; the first read that throws ends it. */
  function ReadFrames(l: Layout, src: Source, sel: seq<Subscript>): Outcome<seq<Value>>
    requires |l.dim| == 8
    decreases |sel|
  {
    if sel == [] then Ok([])
    else
      var f :- FrameAt(l, src, sel[0]);
      var rest :- ReadFrames(l, src, sel[1..]);
      Ok([f] + rest)
  }

  /** The frames read so far followed by those of a further read, or its error. */
  function After(img: seq<Value>, r: Outcome<seq<Value>>): Outcome<seq<Value>>
  {
    match r
    case Err(e) => Err(e)
    case Ok(vs) => Ok(img + vs)
  }

  /**
   * The frame reads succeed exactly when each frame's does; the frames
   * are then those of the subscripts in order, and otherwise the error is
   * that of the first frame that fails.
   */
  lemma ReadFramesFacts(l: Layout, src: Source, sel: seq<Subscript>)
    requires |l.dim| == 8
    ensures ReadFrames(l, src, sel).Ok? <==> forall k :: 0 <= k < |sel| ==> FrameAt(l, src, sel[k]).Ok?
    ensures ReadFrames(l, src, sel).Ok? ==>
      |ReadFrames(l, src, sel).value| == |sel| &&
      forall k :: 0 <= k < |sel| ==> ReadFrames(l, src, sel).value[k] == FrameAt(l, src, sel[k]).value
    ensures forall k :: 0 <= k < |sel| && FrameAt(l, src, sel[k]).Err? && (forall j :: 0 <= j < k ==> FrameAt(l, src, sel[j]).Ok?) ==>
      ReadFrames(l, src, sel) == Err(FrameAt(l, src, sel[k]).error)
  {
    ReadFramesOk(l, src, sel);
    forall k | 0 <= k < |sel| && FrameAt(l, src, sel[k]).Err? && (forall j :: 0 <= j < k ==> FrameAt(l, src, sel[j]).Ok?)
      ensures ReadFrames(l, src, sel) == Err(FrameAt(l, src, sel[k]).error)
    {
      ReadFramesFirstError(l, src, sel, k);
    }
  }

  /** The frame reads succeed exactly when each frame's does, and then hold those frames in order. */
  lemma {:induction false} ReadFramesOk(l: Layout, src: Source, sel: seq<Subscript>)
    requires |l.dim| == 8
    ensures ReadFrames(l, src, sel).Ok? <==> forall k :: 0 <= k < |sel| ==> FrameAt(l, src, sel[k]).Ok?
    ensures ReadFrames(l, src, sel).Ok? ==>
      |ReadFrames(l, src, sel).value| == |sel| &&
      forall k :: 0 <= k < |sel| ==> ReadFrames(l, src, sel).value[k] == FrameAt(l, src, sel[k]).value
    decreases |sel|
  {
    if sel != [] {
      var tail := sel[1..];
      ReadFramesOk(l, src, tail);
      assert forall k :: 1 <= k < |sel| ==> sel[k] == tail[k - 1];
    }
  }

  /** When frame k is the first that fails, the frame reads fail with its error. */
  lemma {:induction false} ReadFramesFirstError(l: Layout, src: Source, sel: seq<Subscript>, k: nat)
    requires |l.dim| == 8 && k < |sel| && FrameAt(l, src, sel[k]).Err?
    requires forall j :: 0 <= j < k ==> FrameAt(l, src, sel[j]).Ok?
    ensures ReadFrames(l, src, sel) == Err(FrameAt(l, src, sel[k]).error)
    decreases k
  {
    if k > 0 {
      var tail := sel[1..];
      assert FrameAt(l, src, sel[0]).Ok?;
      forall j | 0 <= j < k - 1
        ensures FrameAt(l, src, tail[j]).Ok?
      {
        assert tail[j] == sel[j + 1];
      }
      assert tail[k - 1] == sel[k];
      ReadFramesFirstError(l, src, tail, k - 1);
    }
  }

  /** One frame further: its error ends the read, or it joins the frames read so far. */
  lemma FrameStep(l: Layout, src: Source, img: seq<Value>, sel: seq<Subscript>)
    requires |l.dim| == 8 && sel != []
    ensures FrameAt(l, src, sel[0]).Err? ==> After(img, ReadFrames(l, src, sel)) == Err(FrameAt(l, src, sel[0]).error)
    ensures FrameAt(l, src, sel[0]).Ok? ==>
      After(img, ReadFrames(l, src, sel)) == After(img + [FrameAt(l, src, sel[0]).value], ReadFrames(l, src, sel[1..]))
  {
    if FrameAt(l, src, sel[0]).Ok? {
      var f := FrameAt(l, src, sel[0]).value;
      match ReadFrames(l, src, sel[1..])
      case Err(e) =>
      case Ok(rest) => assert img + ([f] + rest) == (img + [f]) + rest;
    }
  }

  /** Reading two selections one after the other is reading their concatenation. */
  lemma {:induction false} AfterAppend(l: Layout, src: Source, img: seq<Value>, a: seq<Subscript>, b: seq<Subscript>)
    requires |l.dim| == 8
    ensures After(img, ReadFrames(l, src, a + b)) ==
      match After(img, ReadFrames(l, src, a))
      case Err(e) => Err(e)
      case Ok(m) => After(m, ReadFrames(l, src, b))
    decreases |a|
  {
    if a == [] {
      assert a + b == b;
      assert img + [] == img;
    } else {
      assert (a + b)[0] == a[0] && (a + b)[1..] == a[1..] + b;
      FrameStep(l, src, img, a + b);
      FrameStep(l, src, img, a);
      if FrameAt(l, src, a[0]).Ok? {
        AfterAppend(l, src, img + [FrameAt(l, src, a[0]).value], a[1..], b);
      }
    }
  }

  /** The cursor reads the buffer of `src` in its byte order. */
  predicate OpenOn(fid: File, src: Source)
    reads fid
  {
    fid.content == Some(src.data) && fid.littleEndian == src.littleEndian
  }

  /** The body of the innermost loop: seek to the frame and read it. */
  method ReadFrame(fid: File, l: Layout, src: Source, s: Subscript) returns (r: Outcome<Value>)
    requires |l.dim| == 8 && OpenOn(fid, src)
    modifies fid
    ensures OpenOn(fid, src)
    ensures r == FrameAt(l, src, s)
  {
    var idx := Sub2ind(l.dim[1..], [1, 1, 1, s.t, s.i5, s.i6, s.i7]);
    if idx.Err? {
      return Err(idx.error);
    }
    var _ := fid.Fseek(FramePos(l, idx.value), "bof");
    r := fid.Fread(l.size, l.precision, src.fmt);
  }

  /** The innermost loop: one frame per entry of `ts`, appended to `img0`. */
  method ReadRow(fid: File, l: Layout, src: Source, img0: seq<Value>, ts: seq<int>, i5: int, i6: int, i7: int)
    returns (r: Outcome<seq<Value>>)
    requires |l.dim| == 8 && OpenOn(fid, src)
    modifies fid
    ensures OpenOn(fid, src)
    ensures r == After(img0, ReadFrames(l, src, Row(ts, i5, i6, i7)))
  {
    ghost var row := Row(ts, i5, i6, i7);
    var img := img0;
    var k := 0;
    while k < |ts|
      invariant 0 <= k <= |ts| && OpenOn(fid, src)
      invariant After(img0, ReadFrames(l, src, row)) == After(img, ReadFrames(l, src, row[k..]))
    {
      var t := ts[k];
      assert row[k..][0] == Subscript(t, i5, i6, i7) && row[k..][1..] == row[k + 1..];
      FrameStep(l, src, img, row[k..]);
      var frame := ReadFrame(fid, l, src, Subscript(t, i5, i6, i7));
      if frame.Err? {
        return Err(frame.error);
      }
      img := img + [frame.value];
      k := k + 1;
    }
    assert row[k..] == [];
    assert img + [] == img;
    r := Ok(img);
  }

  /** The loop over i5. */
  method ReadLevel5(fid: File, l: Layout, src: Source, img0: seq<Value>, ts: seq<int>, l5: seq<int>, i6: int, i7: int)
    returns (r: Outcome<seq<Value>>)
    requires |l.dim| == 8 && OpenOn(fid, src)
    modifies fid
    ensures OpenOn(fid, src)
    ensures r == After(img0, ReadFrames(l, src, Sel5(ts, l5, i6, i7)))
  {
    var img := img0;
    var k := 0;
    while k < |l5|
      invariant 0 <= k <= |l5| && OpenOn(fid, src)
      invariant After(img0, ReadFrames(l, src, Sel5(ts, l5, i6, i7))) == After(img, ReadFrames(l, src, Sel5(ts, l5[k..], i6, i7)))
    {
      assert l5[k..][0] == l5[k] && l5[k..][1..] == l5[k + 1..];
      assert Sel5(ts, l5[k..], i6, i7) == Row(ts, l5[k], i6, i7) + Sel5(ts, l5[k + 1..], i6, i7);
      AfterAppend(l, src, img, Row(ts, l5[k], i6, i7), Sel5(ts, l5[k + 1..], i6, i7));
      var x := ReadRow(fid, l, src, img, ts, l5[k], i6, i7);
      if x.Err? {
        return x;
      }
      img := x.value;
      k := k + 1;
    }
    assert l5[k..] == [];
    assert img + [] == img;
    r := Ok(img);
  }

  /** The loop over i6. */
  method ReadLevel6(fid: File, l: Layout, src: Source, img0: seq<Value>, ts: seq<int>, l5: seq<int>, l6: seq<int>, i7: int)
    returns (r: Outcome<seq<Value>>)
    requires |l.dim| == 8 && OpenOn(fid, src)
    modifies fid
    ensures OpenOn(fid, src)
    ensures r == After(img0, ReadFrames(l, src, Sel6(ts, l5, l6, i7)))
  {
    var img := img0;
    var k := 0;
    while k < |l6|
      invariant 0 <= k <= |l6| && OpenOn(fid, src)
      invariant After(img0, ReadFrames(l, src, Sel6(ts, l5, l6, i7))) == After(img, ReadFrames(l, src, Sel6(ts, l5, l6[k..], i7)))
    {
      assert l6[k..][0] == l6[k] && l6[k..][1..] == l6[k + 1..];
      assert Sel6(ts, l5, l6[k..], i7) == Sel5(ts, l5, l6[k], i7) + Sel6(ts, l5, l6[k + 1..], i7);
      AfterAppend(l, src, img, Sel5(ts, l5, l6[k], i7), Sel6(ts, l5, l6[k + 1..], i7));
      var x := ReadLevel5(fid, l, src, img, ts, l5, l6[k], i7);
      if x.Err? {
        return x;
      }
      img := x.value;
      k := k + 1;
    }
    assert l6[k..] == [];
    assert img + [] == img;
    r := Ok(img);
  }

  /**
   * The selective read: the loop over i7 around the other three, each
   * frame stored at the next free position of `img`.
   */
  method ReadSelection(fid: File, l: Layout, src: Source, ts: seq<int>, l5: seq<int>, l6: seq<int>, l7: seq<int>)
    returns (r: Outcome<seq<Value>>)
    requires |l.dim| == 8 && OpenOn(fid, src)
    modifies fid
    ensures OpenOn(fid, src)
    ensures r == ReadFrames(l, src, Selection(ts, l5, l6, l7))
  {
    var img: seq<Value> := [];
    var k := 0;
    while k < |l7|
      invariant 0 <= k <= |l7| && OpenOn(fid, src)
      invariant After([], ReadFrames(l, src, Selection(ts, l5, l6, l7))) == After(img, ReadFrames(l, src, Selection(ts, l5, l6, l7[k..])))
    {
      assert l7[k..][0] == l7[k] && l7[k..][1..] == l7[k + 1..];
      assert Selection(ts, l5, l6, l7[k..]) == Sel6(ts, l5, l6, l7[k]) + Selection(ts, l5, l6, l7[k + 1..]);
      AfterAppend(l, src, img, Sel6(ts, l5, l6, l7[k]), Selection(ts, l5, l6, l7[k + 1..]));
      var x := ReadLevel6(fid, l, src, img, ts, l5, l6, l7[k]);
      if x.Err? {
        r := Err(x.error);
        AfterEmpty(ReadFrames(l, src, Selection(ts, l5, l6, l7)));
        return;
      }
      img := x.value;
      k := k + 1;
    }
    assert l7[k..] == [];
    assert img + [] == img;
    AfterEmpty(ReadFrames(l, src, Selection(ts, l5, l6, l7)));
    r := Ok(img);
  }

  lemma AfterEmpty(r: Outcome<seq<Value>>)
    ensures After([], r) == r
  {
    if r.Ok? {
      assert [] + r.value == r.value;
    }
  }

  /**
   * A frame's subscripts are checked against dim[1..7] as 0-based indices
   * while check_argin admits 1..dim[4]: with slices of at least 2 by 2 by
   * 2, the frame t == dim[4] that check_argin lets through is rejected by
   * sub2ind, for the fourth dimension.
   */
  lemma LastFrameRejected(l: Layout, src: Source, t: int, i5: int, i6: int, i7: int)
    requires |l.dim| == 8 && l.dim[1] >= 2 && l.dim[2] >= 2 && l.dim[3] >= 2
    requires t == l.dim[4]
    ensures FrameAt(l, src, Subscript(t, i5, i6, i7)) == Err(ErrorObject(OutOfBoundsMessage(t, 3)))
  {
    FirstBadIsFirst(l.dim[1..], [1, 1, 1, t, i5, i6, i7], 3);
  }

  /**
   * The three fixed subscripts are 1, so a selective read of an image with
   * a single row, column or slice fails on its first frame.
   */
  lemma ThinSliceRejected(l: Layout, src: Source, s: Subscript)
    requires |l.dim| == 8 && (l.dim[1] <= 1 || l.dim[2] <= 1 || l.dim[3] <= 1)
    ensures FrameAt(l, src, s).Err? && FrameAt(l, src, s).error.ErrorObject?
  {
    var subs := [1, 1, 1, s.t, s.i5, s.i6, s.i7];
    if l.dim[1] <= 1 {
      FirstBadIsFirst(l.dim[1..], subs, 0);
    } else if l.dim[2] <= 1 {
      FirstBadIsFirst(l.dim[1..], subs, 1);
    } else {
      FirstBadIsFirst(l.dim[1..], subs, 2);
    }
  }

  // ----- the global minimum and maximum -----

  /**
   * glmax and glmin after the loop `for (const item of items)` that raises
   * glmax to any item above it and lowers glmin to any item below it. An
   * item that compares as NaN changes neither.
   */
  function Extremes(items: seq<Value>, glmax: real, glmin: real): (real, real)
    decreases |items|
  {
    if items == [] then (glmax, glmin)
    else
      var (hi, lo) := Extremes(items[..|items| - 1], glmax, glmin);
      var x := NumberOf(items[|items| - 1]);
      (if x.Some? && hi < x.value then x.value else hi,
       if x.Some? && lo > x.value then x.value else lo)
  }

  /**
   * The new glmax is the greatest of the old one and every item that
   * compares as a number, and the new glmin the least: both bound every
   * such item, neither moves inward, and each is the old value or an item.
   */
  lemma {:induction false} ExtremesFacts(items: seq<Value>, glmax: real, glmin: real)
    ensures var (hi, lo) := Extremes(items, glmax, glmin);
      glmax <= hi && lo <= glmin &&
      (forall i :: 0 <= i < |items| && NumberOf(items[i]).Some? ==> lo <= NumberOf(items[i]).value <= hi) &&
      (hi == glmax || exists i :: 0 <= i < |items| && NumberOf(items[i]) == Some(hi)) &&
      (lo == glmin || exists i :: 0 <= i < |items| && NumberOf(items[i]) == Some(lo))
    decreases |items|
  {
    if items != [] {
      var p := items[..|items| - 1];
      ExtremesFacts(p, glmax, glmin);
      assert forall i :: 0 <= i < |p| ==> items[i] == p[i];
    }
  }

  /** Items that never compare as numbers leave glmax and glmin as they were. */
  lemma {:induction false} ExtremesOfNaN(items: seq<Value>, glmax: real, glmin: real)
    requires forall i :: 0 <= i < |items| ==> NumberOf(items[i]).None?
    ensures Extremes(items, glmax, glmin) == (glmax, glmin)
    decreases |items|
  {
    if items != [] {
      ExtremesOfNaN(items[..|items| - 1], glmax, glmin);
    }
  }

  /** The loop itself, over the items given. */
  method UpdateRange(items: seq<Value>, glmax0: real, glmin0: real) returns (glmax: real, glmin: real)
    ensures (glmax, glmin) == Extremes(items, glmax0, glmin0)
  {
    glmax, glmin := glmax0, glmin0;
    var i := 0;
    while i < |items|
      invariant 0 <= i <= |items|
      invariant (glmax, glmin) == Extremes(items[..i], glmax0, glmin0)
    {
      assert items[..i + 1][..i] == items[..i];
      var x := NumberOf(items[i]);
      if x.Some? && glmax < x.value {
        glmax := x.value;
      }
      if x.Some? && glmin > x.value {
        glmin := x.value;
      }
      i := i + 1;
    }
    assert items[..i] == items;
  }

  // ----- unwrapping singleton levels -----

  /**
   * `while (img.length === 1) img = img[0]`: reading the length of null or
   * undefined throws a TypeError. Text is not modelled here (a one-letter
   * string would loop for ever).
   */
  function Unwrapped(v: Value): Outcome<Value>
  {
    if Nullish(v) then Err(TypeError)
    else if v.Arr? && |v.items| == 1 then Unwrapped(v.items[0])
    else Ok(v)
  }

  /**
   * Unwrapping keeps the leaves, and what it returns is not a one-element
   * array; an empty array or a longer one is returned as it is.
   */
  lemma {:induction false} UnwrappedFacts(v: Value)
    ensures Unwrapped(v).Ok? ==> Leaves(Unwrapped(v).value) == Leaves(v)
    ensures Unwrapped(v).Ok? ==> !(Unwrapped(v).value.Arr? && |Unwrapped(v).value.items| == 1)
    ensures v.Arr? && |v.items| != 1 ==> Unwrapped(v) == Ok(v)
  {
    if v.Arr? && |v.items| == 1 {
      UnwrappedFacts(v.items[0]);
      assert LeavesSeq(v.items) == Leaves(v.items[0]) + LeavesSeq([]) by {
        assert v.items[1..] == [];
      }
      assert Leaves(v.items[0]) + [] == Leaves(v.items[0]);
    }
  }

  /** The loop itself. */
  method Unwrap(v: Value) returns (r: Outcome<Value>)
    ensures r == Unwrapped(v)
  {
    var img := v;
    while !Nullish(img) && img.Arr? && |img.items| == 1
      invariant Unwrapped(img) == Unwrapped(v)
      decreases img
    {
      img := img.items[0];
    }
    if Nullish(img) {
      return Err(TypeError);
    }
    r := Ok(img);
  }
}
