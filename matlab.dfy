// The MATLAB-compatibility array library of the viewer: predicates and
// index arithmetic over JavaScript nested arrays (isnumeric, unique, sub2ind,
// reshape, isequal, permute, transpose, flip, prod, size, ndims, find).
// Matrix routines (det, diag, inv) and bitset live in module MatlabMatrix.

module Matlab {
  import opened JsValues

  // ----- isnumeric -----

  /** `isnumeric(value)`: a number, or an array whose elements are all numeric. */
  function IsNumeric(v: Value): bool
  {
    match v
    case Num(_) => true
    case Arr(items) => forall i :: 0 <= i < |items| ==> IsNumeric(items[i])
    case _ => false
  }

  /** isnumeric holds exactly for numbers and for arrays all of whose nested leaves are numbers. */
  lemma {:induction false} IsNumericLeaves(v: Value)
    ensures IsNumeric(v) <==> (v.Num? || (v.Arr? && forall l :: l in Leaves(v) ==> l.Num?))
  {
    match v
    case Arr(items) => IsNumericSeqLeaves(items);
    case _ =>
  }

  lemma {:induction false} IsNumericSeqLeaves(items: seq<Value>)
    ensures (forall i :: 0 <= i < |items| ==> IsNumeric(items[i]))
        <==> (forall l :: l in LeavesSeq(items) ==> l.Num?)
  {
    if items != [] {
      IsNumericSeqLeaves(items[1..]);
      IsNumericLeaves(items[0]);
      assert forall i :: 1 <= i < |items| ==> items[i] == items[1..][i - 1];
      assert (forall i :: 0 <= i < |items| ==> IsNumeric(items[i]))
          <==> IsNumeric(items[0]) && (forall i :: 0 <= i < |items[1..]| ==> IsNumeric(items[1..][i]));
    }
  }

  // ----- unique -----

  /** Position of the first occurrence of `x` in `s`. */
  function FirstIndex<T(==)>(s: seq<T>, x: T): (k: nat)
    requires x in s
    ensures k < |s| && s[k] == x && x !in s[..k]
  {
    if s[0] == x then 0 else 1 + FirstIndex(s[1..], x)
  }

  /**
   * `unique(array)` = `[...new Set(array)]`: the distinct elements in the
   * order of their first occurrence.
   */
  function Unique<T(==,!new)>(s: seq<T>): (r: seq<T>)
    ensures NoDuplicates(r)
    ensures forall x :: x in r <==> x in s
    ensures |r| <= |s|
  {
    if s == [] then []
    else
      var u := Unique(s[..|s| - 1]);
      if s[|s| - 1] in u then u else u + [s[|s| - 1]]
  }

  lemma {:induction false} FirstIndexPrefix<T>(p: seq<T>, x: T, y: T)
    requires y in p
    ensures FirstIndex(p + [x], y) == FirstIndex(p, y)
  {
    if p[0] != y {
      assert (p + [x])[1..] == p[1..] + [x];
      FirstIndexPrefix(p[1..], x, y);
    }
  }

  lemma {:induction false} FirstIndexLast<T>(p: seq<T>, x: T)
    requires x !in p
    ensures FirstIndex(p + [x], x) == |p|
  {
    if p != [] {
      assert (p + [x])[1..] == p[1..] + [x];
      FirstIndexLast(p[1..], x);
    }
  }

  /** unique keeps first-occurrence order: its elements appear in s first in the order they appear in the result. */
  lemma {:induction false} UniqueFirstOccurrenceOrder<T(!new)>(s: seq<T>)
    ensures forall i, j :: 0 <= i < j < |Unique(s)| ==> FirstIndex(s, Unique(s)[i]) < FirstIndex(s, Unique(s)[j])
  {
    if s != [] {
      var p := s[..|s| - 1];
      var x := s[|s| - 1];
      assert s == p + [x];
      UniqueFirstOccurrenceOrder(p);
      var u := Unique(p);
      forall y | y in p ensures FirstIndex(s, y) == FirstIndex(p, y) {
        FirstIndexPrefix(p, x, y);
      }
      if x !in u {
        FirstIndexLast(p, x);
        forall i | 0 <= i < |u| ensures FirstIndex(s, u[i]) < |p| {
          assert u[i] in p;
        }
      }
    }
  }

  /** The length test used for duplicate detection is exact. */
  lemma {:induction false} UniqueKeepsLength<T(!new)>(s: seq<T>)
    ensures |Unique(s)| == |s| <==> NoDuplicates(s)
  {
    if s != [] {
      var p := s[..|s| - 1];
      var x := s[|s| - 1];
      UniqueKeepsLength(p);
      assert s == p + [x];
      if x in p {
        var k :| 0 <= k < |p| && p[k] == x;
        assert s[k] == s[|s| - 1];
      } else {
        if NoDuplicates(p) {
          forall i, j | 0 <= i < j < |s| ensures s[i] != s[j] {
            if j == |s| - 1 { assert s[i] == p[i]; } else { assert s[i] == p[i] && s[j] == p[j]; }
          }
        } else {
          var i, j :| 0 <= i < j < |p| && p[i] == p[j];
          assert s[i] == s[j];
        }
      }
    }
  }

  // ----- prod -----

  /** `prod(array)` = `array.reduce((acc, num) => acc * num, 1)`. */
  function Prod(s: seq<int>): int
  {
    if s == [] then 1 else Prod(s[..|s| - 1]) * s[|s| - 1]
  }

  lemma {:induction false} ProdAppend(a: seq<int>, b: seq<int>)
    ensures Prod(a + b) == Prod(a) * Prod(b)
    decreases |b|
  {
    if b == [] {
      assert a + b == a;
    } else {
      var b' := b[..|b| - 1];
      assert (a + b)[..|a + b| - 1] == a + b';
      ProdAppend(a, b');
      calc {
        Prod(a + b);
        Prod(a + b') * b[|b| - 1];
        (Prod(a) * Prod(b')) * b[|b| - 1];
        Prod(a) * (Prod(b') * b[|b| - 1]);
      }
    }
  }

  /** The product is the first factor times the product of the others. */
  lemma ProdFirst(s: seq<int>)
    requires s != []
    ensures Prod(s) == s[0] * Prod(s[1..])
  {
    ProdAppend([s[0]], s[1..]);
    assert [s[0]] + s[1..] == s;
    assert Prod([s[0]]) == s[0] by { assert [s[0]][..0] == []; }
  }

  /** The product does not depend on the order of the factors. */
  lemma {:induction false} ProdReverse(s: seq<int>)
    ensures Prod(Reverse(s)) == Prod(s)
  {
    if s != [] {
      ProdReverse(s[1..]);
      ProdAppend(Reverse(s[1..]), [s[0]]);
      ProdAppend([s[0]], s[1..]);
      assert [s[0]] + s[1..] == s;
      assert Prod([s[0]]) == s[0] by { assert [s[0]][..0] == []; }
    }
  }

  lemma {:induction false} ProdPositive(s: seq<int>)
    requires forall i :: 0 <= i < |s| ==> s[i] >= 1
    ensures Prod(s) >= 1
  {
    if s != [] {
      ProdPositive(s[..|s| - 1]);
      var p := Prod(s[..|s| - 1]);
      assert p * s[|s| - 1] >= p * 1;
    }
  }

  lemma {:induction false} ProdNonNegative(s: seq<int>)
    requires forall i :: 0 <= i < |s| ==> s[i] >= 0
    ensures Prod(s) >= 0
  {
    if s != [] {
      ProdNonNegative(s[..|s| - 1]);
    }
  }

  // ----- sub2ind -----

  /** The first dimension whose subscript is out of bounds, in the order the loop tests them. */
  function FirstBadSubscript(sizes: seq<int>, subs: seq<int>): (r: Option<nat>)
    requires |subs| == |sizes|
    ensures r.Some? ==> r.value < |subs| && (subs[r.value] < 0 || subs[r.value] >= sizes[r.value])
    ensures r.Some? ==> forall k :: 0 <= k < r.value ==> 0 <= subs[k] < sizes[k]
    ensures r.None? <==> forall k :: 0 <= k < |subs| ==> 0 <= subs[k] < sizes[k]
  {
    if subs == [] then None
    else if subs[0] < 0 || subs[0] >= sizes[0] then Some(0)
    else
      match FirstBadSubscript(sizes[1..], subs[1..])
      case None => None
      case Some(k) => Some(k + 1)
  }

  /** Σ subs[k] · Π_{j<k} sizes[j]: what the index/multiplier loop accumulates. */
  function LinearIndex(sizes: seq<int>, subs: seq<int>): int
    requires |subs| == |sizes|
  {
    if subs == [] then 0
    else
      var n := |subs| - 1;
      LinearIndex(sizes[..n], subs[..n]) + subs[n] * Prod(sizes[..n])
  }

  function OutOfBoundsMessage(s: int, i: int): string
  {
    "Subscript " + IntToString(s) + " is out of bounds for dimension " + IntToString(i)
  }

  /** What `sub2ind(sizes, ...subs)` returns or throws. */
  function Sub2indSpec(sizes: seq<int>, subs: seq<int>): Outcome<int>
  {
    if |subs| != |sizes| then
      Err(ErrorObject("Number of subscripts must match number of dimensions"))
    else
      match FirstBadSubscript(sizes, subs)
      case Some(i) => Err(ErrorObject(OutOfBoundsMessage(subs[i], i)))
      case None => Ok(LinearIndex(sizes, subs))
  }

  method Sub2ind(sizes: seq<int>, subs: seq<int>) returns (r: Outcome<int>)
    ensures r == Sub2indSpec(sizes, subs)
  {
    var index := 0;
    var multiplier := 1;
    if |subs| != |sizes| {
      return Err(ErrorObject("Number of subscripts must match number of dimensions"));
    }
    var i := 0;
    while i < |subs|
      invariant 0 <= i <= |subs|
      invariant forall k :: 0 <= k < i ==> 0 <= subs[k] < sizes[k]
      invariant index == LinearIndex(sizes[..i], subs[..i])
      invariant multiplier == Prod(sizes[..i])
    {
      if subs[i] < 0 || subs[i] >= sizes[i] {
        FirstBadIsFirst(sizes, subs, i);
        return Err(ErrorObject(OutOfBoundsMessage(subs[i], i)));
      }
      assert sizes[..i + 1][..i] == sizes[..i];
      assert subs[..i + 1][..i] == subs[..i];
      index := index + subs[i] * multiplier;
      multiplier := multiplier * sizes[i];
      i := i + 1;
    }
    assert sizes[..i] == sizes && subs[..i] == subs;
    return Ok(index);
  }

  lemma {:induction false} FirstBadIsFirst(sizes: seq<int>, subs: seq<int>, i: nat)
    requires |subs| == |sizes| && i < |subs|
    requires forall k :: 0 <= k < i ==> 0 <= subs[k] < sizes[k]
    requires subs[i] < 0 || subs[i] >= sizes[i]
    ensures FirstBadSubscript(sizes, subs) == Some(i)
  {
    if i > 0 {
      FirstBadIsFirst(sizes[1..], subs[1..], i - 1);
    }
  }

  /** In-bounds subscripts give an index in [0, Π sizes). */
  lemma {:induction false} LinearIndexBounds(sizes: seq<int>, subs: seq<int>)
    requires |subs| == |sizes|
    requires forall k :: 0 <= k < |subs| ==> 0 <= subs[k] < sizes[k]
    ensures 0 <= LinearIndex(sizes, subs) < Prod(sizes)
  {
    if subs != [] {
      var n := |subs| - 1;
      LinearIndexBounds(sizes[..n], subs[..n]);
      var p := Prod(sizes[..n]);
      var l := LinearIndex(sizes[..n], subs[..n]);
      MulLeMono(0, subs[n], p);
      MulLeMono(subs[n], sizes[n] - 1, p);
      assert (sizes[n] - 1) * p + p == sizes[n] * p;
      assert Prod(sizes) == p * sizes[n];
    }
  }

  /** The first subscript varies fastest: index = s0 + d0 · index(rest). */
  lemma {:induction false} LinearIndexFirstFastest(sizes: seq<int>, subs: seq<int>)
    requires |subs| == |sizes| > 0
    ensures LinearIndex(sizes, subs) == subs[0] + sizes[0] * LinearIndex(sizes[1..], subs[1..])
    decreases |subs|
  {
    var n := |subs| - 1;
    if n == 0 {
      assert sizes[..0] == [] && subs[..0] == [] && sizes[1..] == [] && subs[1..] == [];
    } else {
      LinearIndexFirstFastest(sizes[..n], subs[..n]);
      assert sizes[..n][1..] == sizes[1..][..n - 1];
      assert subs[..n][1..] == subs[1..][..n - 1];
      assert sizes[1..][n - 1] == sizes[n] && subs[1..][n - 1] == subs[n];
      ProdAppend([sizes[0]], sizes[1..][..n - 1]);
      assert [sizes[0]] + sizes[1..][..n - 1] == sizes[..n];
      assert Prod([sizes[0]]) == sizes[0] by { assert [sizes[0]][..0] == []; }
      var sub0, d0, x := subs[0], sizes[0], subs[n];
      var low := LinearIndex(sizes[1..][..n - 1], subs[1..][..n - 1]);
      var p := Prod(sizes[1..][..n - 1]);
      assert LinearIndex(sizes, subs) == LinearIndex(sizes[..n], subs[..n]) + x * Prod(sizes[..n]);
      assert LinearIndex(sizes[1..], subs[1..]) == low + x * p;
      Regroup(sub0, d0, low, x, p);
    }
  }

  lemma Regroup(s0: int, d0: int, low: int, x: int, p: int)
    ensures (s0 + d0 * low) + x * (d0 * p) == s0 + d0 * (low + x * p)
  {
  }

  /** Writing a number as digit + d · rest, with 0 <= digit < d, is unique. */
  lemma DigitSplitUnique(d: int, a0: int, la: int, b0: int, lb: int)
    requires 0 <= a0 < d && 0 <= b0 < d
    requires a0 + d * la == b0 + d * lb
    ensures a0 == b0 && la == lb
  {
    if la < lb {
      MulLeMono(la + 1, lb, d);
      assert false;
    } else if lb < la {
      MulLeMono(lb + 1, la, d);
      assert false;
    }
  }

  /** Distinct in-bounds subscripts never share a linear index. */
  lemma {:induction false} LinearIndexInjective(sizes: seq<int>, a: seq<int>, b: seq<int>)
    requires |a| == |sizes| && |b| == |sizes|
    requires forall k :: 0 <= k < |a| ==> 0 <= a[k] < sizes[k]
    requires forall k :: 0 <= k < |b| ==> 0 <= b[k] < sizes[k]
    requires LinearIndex(sizes, a) == LinearIndex(sizes, b)
    ensures a == b
    decreases |sizes|
  {
    if sizes != [] {
      LinearIndexFirstFastest(sizes, a);
      LinearIndexFirstFastest(sizes, b);
      DigitSplitUnique(sizes[0], a[0], LinearIndex(sizes[1..], a[1..]), b[0], LinearIndex(sizes[1..], b[1..]));
      LinearIndexInjective(sizes[1..], a[1..], b[1..]);
      assert a == [a[0]] + a[1..] && b == [b[0]] + b[1..];
    }
  }

  /** sub2ind throws exactly on a count mismatch or an out-of-bounds subscript, and otherwise lands in [0, Π sizes). */
  lemma Sub2indSpecCases(sizes: seq<int>, subs: seq<int>)
    ensures Sub2indSpec(sizes, subs).Ok?
        <==> |subs| == |sizes| && forall k :: 0 <= k < |subs| ==> 0 <= subs[k] < sizes[k]
    ensures Sub2indSpec(sizes, subs).Ok? ==> 0 <= Sub2indSpec(sizes, subs).value < Prod(sizes)
  {
    if |subs| == |sizes| && FirstBadSubscript(sizes, subs).None? {
      LinearIndexBounds(sizes, subs);
    }
  }

  // ----- size, ndims -----

  /** `size(array)`: the lengths met by following element 0 down the nesting. */
  function Size(v: Value): seq<nat>
  {
    match v
    case Arr(items) => if items == [] then [0] else [|items|] + Size(items[0])
    case _ => []
  }

  /** `ndims(array)`: the length of `size`, but never less than 2. */
  function Ndims(v: Value): nat
  {
    var n := |Size(v)|;
    if n <= 2 then 2 else n
  }

  /** A regular nested array whose nesting lengths are `shape`, outermost first. */
  predicate HasShape(v: Value, shape: seq<nat>)
    decreases shape
  {
    if shape == [] then !v.Arr?
    else (v.Arr? && |v.items| == shape[0]
          && forall i :: 0 <= i < |v.items| ==> HasShape(v.items[i], shape[1..]))
  }

  /** size of a regular array with no empty level is its shape, and ndims is max(2, rank). */
  lemma {:induction false} SizeOfShape(v: Value, shape: seq<nat>)
    requires HasShape(v, shape)
    requires forall k :: 0 <= k < |shape| ==> shape[k] >= 1
    ensures Size(v) == shape
    ensures Ndims(v) == if |shape| <= 2 then 2 else |shape|
    decreases shape
  {
    if shape != [] {
      SizeOfShape(v.items[0], shape[1..]);
    }
  }

  // ----- find -----

  /**
   * The recursive `traverse` of `find`, threading the linear index through
   * `reduce`: the indices pushed while visiting `v` starting at linear index
   * `lin`, and the linear index after it.
   */
  function Traverse(v: Value, lin: nat): (nat, seq<nat>)
  {
    match v
    case Arr(items) => TraverseSeq(items, lin)
    case _ => (lin + 1, if v == Num(0.0) then [] else [lin])
  }

  function TraverseSeq(items: seq<Value>, lin: nat): (nat, seq<nat>)
  {
    if items == [] then (lin, [])
    else
      var (mid, first) := Traverse(items[0], lin);
      var (next, rest) := TraverseSeq(items[1..], mid);
      (next, first + rest)
  }

  /**
   * `find(X)`. The closing orientation test returns `indices` or
   * `indices.flat()`, which are equal because indices holds numbers only.
   */
  function Find(x: Value): seq<nat>
  {
    Traverse(x, 0).1
  }

  predicate Increasing(s: seq<nat>)
  {
    forall i, j :: 0 <= i < j < |s| ==> s[i] < s[j]
  }

  lemma {:induction false} TraverseFacts(v: Value, lin: nat)
    ensures Traverse(v, lin).0 == lin + |Leaves(v)|
    ensures Increasing(Traverse(v, lin).1)
    ensures forall k :: (k in Traverse(v, lin).1
                         <==> lin <= k < lin + |Leaves(v)| && Leaves(v)[k - lin] != Num(0.0))
  {
    match v
    case Arr(items) => TraverseSeqFacts(items, lin);
    case _ =>
  }

  lemma {:induction false} TraverseSeqFacts(items: seq<Value>, lin: nat)
    ensures TraverseSeq(items, lin).0 == lin + |LeavesSeq(items)|
    ensures Increasing(TraverseSeq(items, lin).1)
    ensures forall k :: (k in TraverseSeq(items, lin).1
                         <==> lin <= k < lin + |LeavesSeq(items)| && LeavesSeq(items)[k - lin] != Num(0.0))
  {
    if items != [] {
      var (mid, first) := Traverse(items[0], lin);
      TraverseFacts(items[0], lin);
      TraverseSeqFacts(items[1..], mid);
      var (next, rest) := TraverseSeq(items[1..], mid);
      var a := Leaves(items[0]);
      var b := LeavesSeq(items[1..]);
      assert LeavesSeq(items) == a + b;
      forall k ensures k in first + rest
        <==> lin <= k < lin + |a + b| && (a + b)[k - lin] != Num(0.0)
      {
        if lin <= k < lin + |a| { assert (a + b)[k - lin] == a[k - lin]; }
        if lin + |a| <= k < lin + |a + b| { assert (a + b)[k - lin] == b[k - mid]; }
      }
      forall i, j | 0 <= i < j < |first + rest| ensures (first + rest)[i] < (first + rest)[j] {
        if i < |first| && j >= |first| {
          assert first[i] in first && rest[j - |first|] in rest;
        }
      }
    }
  }

  /** find returns, in increasing order, exactly the linear positions of the leaves that are not the number 0. */
  lemma FindNonzeroLeaves(x: Value)
    ensures Increasing(Find(x))
    ensures forall k :: k in Find(x) <==> 0 <= k < |Leaves(x)| && Leaves(x)[k] != Num(0.0)
  {
    TraverseFacts(x, 0);
  }

  // ----- flip -----

  /**
   * The contents of `array` after `flip(array, n)`, which reverses in place
   * the arrays at nesting level n (level 0 for n <= 0) and leaves anything
   * that is not an array alone. flip itself returns undefined.
   */
  function Flipped(v: Value, n: int): Value
    decreases v
  {
    match v
    case Arr(items) =>
      if n <= 0 then Arr(Reverse(items))
      else Arr(seq(|items|, i requires 0 <= i < |items| => Flipped(items[i], n - 1)))
    case _ => v
  }

  /**
   * `flip(array, n)` on the outermost array: at level 0 it reverses the
   * array in place; above it, each element is flipped one level down (the
   * nested arrays are values here, so the element is replaced by its flipped
   * contents). Returns nothing.
   */
  method Flip(a: array<Value>, n: int)
    modifies a
    ensures Arr(a[..]) == Flipped(Arr(old(a[..])), n)
  {
    if n <= 0 {
      ReverseInPlace(a);
    } else {
      var i := 0;
      while i < a.Length
        invariant 0 <= i <= a.Length
        invariant forall k :: 0 <= k < i ==> a[k] == Flipped(old(a[k]), n - 1)
        invariant forall k :: i <= k < a.Length ==> a[k] == old(a[k])
      {
        a[i] := Flipped(a[i], n - 1);
        i := i + 1;
      }
    }
  }

  /** Flipping twice along the same level restores the array. */
  lemma {:induction false} FlipTwice(v: Value, n: int)
    ensures Flipped(Flipped(v, n), n) == v
    decreases v
  {
    match v
    case Arr(items) =>
      if n <= 0 {
        assert Reverse(Reverse(items)) == items;
      } else {
        var once := seq(|items|, i requires 0 <= i < |items| => Flipped(items[i], n - 1));
        forall i | 0 <= i < |items| ensures Flipped(once[i], n - 1) == items[i] {
          FlipTwice(items[i], n - 1);
        }
        assert Flipped(Arr(once), n).items == items;
      }
    case _ =>
  }

  /** Flipping keeps a regular array's shape. */
  lemma {:induction false} FlipKeepsShape(v: Value, n: int, shape: seq<nat>)
    requires HasShape(v, shape)
    ensures HasShape(Flipped(v, n), shape)
    decreases shape
  {
    if shape != [] {
      var items := v.items;
      if n <= 0 {
        var r := Reverse(items);
        assert forall i :: 0 <= i < |r| ==> r[i] == items[|items| - 1 - i];
      } else {
        forall i | 0 <= i < |items| ensures HasShape(Flipped(items[i], n - 1), shape[1..]) {
          FlipKeepsShape(items[i], n - 1, shape[1..]);
        }
      }
    }
  }

  /** Flipping only reorders: the multiset of leaves is unchanged. */
  lemma {:induction false} FlipKeepsLeaves(v: Value, n: int)
    ensures multiset(Leaves(Flipped(v, n))) == multiset(Leaves(v))
    decreases v
  {
    match v
    case Arr(items) =>
      if n <= 0 {
        ReverseLeaves(items);
      } else {
        var once := seq(|items|, i requires 0 <= i < |items| => Flipped(items[i], n - 1));
        assert Flipped(v, n) == Arr(once);
        forall i | 0 <= i < |items| ensures multiset(Leaves(once[i])) == multiset(Leaves(items[i])) {
          FlipKeepsLeaves(items[i], n - 1);
        }
        PointwiseLeaves(once, items);
        assert Leaves(Arr(once)) == LeavesSeq(once);
      }
    case _ =>
  }

  lemma {:induction false} PointwiseLeaves(a: seq<Value>, b: seq<Value>)
    requires |a| == |b|
    requires forall i :: 0 <= i < |a| ==> multiset(Leaves(a[i])) == multiset(Leaves(b[i]))
    ensures multiset(LeavesSeq(a)) == multiset(LeavesSeq(b))
  {
    if a != [] {
      PointwiseLeaves(a[1..], b[1..]);
    }
  }

  lemma {:induction false} ReverseLeaves(items: seq<Value>)
    ensures multiset(LeavesSeq(Reverse(items))) == multiset(LeavesSeq(items))
  {
    if items != [] {
      ReverseLeaves(items[1..]);
      LeavesSeqAppend(Reverse(items[1..]), [items[0]]);
      assert LeavesSeq([items[0]]) == Leaves(items[0]) by {
        assert [items[0]][1..] == [];
      }
    }
  }

  // ----- isequal -----

  /** `v[i]` on a value that is neither null nor undefined. */
  function Elem(v: Value, i: nat): Value
    requires !Nullish(v)
  {
    Index(v, i).value
  }

  /**
   * `isequal(array1, array2)`: false when either side is falsy, true when
   * they are the same primitive, false on a length mismatch, and otherwise
   * element by element: recursively for two arrays, by `!=` for anything
   * else. On values without `.length` the element loop does not run.
   */
  function IsEqual(a: Value, b: Value): bool
    decreases a, 1
  {
    if !Truthy(a) || !Truthy(b) then false
    else if StrictEq(a, b) then true
    else if JsLength(a) != JsLength(b) then false
    else
      match a
      case Arr(xs) => forall i :: 0 <= i < |xs| ==> ElementsEqual(xs[i], Elem(b, i))
      // the characters of a string are never arrays
      case Str(s) => forall i :: 0 <= i < |s| ==> LooseEq(Str([s[i]]), Elem(b, i))
      case _ => true
  }

  /** One step of the isequal loop. */
  predicate ElementsEqual(x: Value, y: Value)
    decreases x, 2
  {
    if x.Arr? && y.Arr? then IsEqual(x, y) else LooseEq(x, y)
  }

  /** Two numeric arrays are isequal exactly when they are the same nested array. */
  lemma {:induction false} IsEqualNumericArrays(a: Value, b: Value)
    requires a.Arr? && b.Arr? && IsNumeric(a) && IsNumeric(b)
    ensures IsEqual(a, b) <==> a == b
    decreases a
  {
    var xs, ys := a.items, b.items;
    if |xs| == |ys| {
      forall i | 0 <= i < |xs| ensures ElementsEqual(xs[i], ys[i]) <==> xs[i] == ys[i] {
        if xs[i].Arr? && ys[i].Arr? {
          IsEqualNumericArrays(xs[i], ys[i]);
        }
      }
      if IsEqual(a, b) {
        assert forall i :: 0 <= i < |xs| ==> xs[i] == ys[i];
        assert xs == ys;
      }
    }
  }

  /** isequal(a, a) holds exactly for truthy a: every element compares equal to itself. */
  lemma {:induction false} IsEqualReflexive(a: Value)
    ensures IsEqual(a, a) <==> Truthy(a)
    decreases a
  {
    if Truthy(a) && a.Arr? {
      forall i | 0 <= i < |a.items| ensures ElementsEqual(a.items[i], a.items[i]) {
        if a.items[i].Arr? { IsEqualReflexive(a.items[i]); }
      }
    }
  }

  /** isequal does not depend on the order of its arguments. */
  lemma {:induction false} IsEqualSymmetric(a: Value, b: Value)
    ensures IsEqual(a, b) == IsEqual(b, a)
    decreases a
  {
    if Truthy(a) && Truthy(b) && !StrictEq(a, b) && JsLength(a) == JsLength(b) && a.Arr? && b.Arr? {
      var xs, ys := a.items, b.items;
      forall i | 0 <= i < |xs| ensures ElementsEqual(xs[i], ys[i]) == ElementsEqual(ys[i], xs[i]) {
        if xs[i].Arr? && ys[i].Arr? { IsEqualSymmetric(xs[i], ys[i]); }
      }
    }
  }
}
