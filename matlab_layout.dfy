// The layout-changing routines of the MATLAB-compatibility library:
// reshape, transpose, transpose_nth_dim and permute, together with element
// access by a path of indices, which states what each of them does to the
// position of every element.

module MatlabLayout {
  import opened JsValues
  import opened Matlab

  // ----- element access on regular nested arrays -----

  /** `v[path[0]][path[1]]...`, outermost index first; `undefined` once a step leaves the array. */
  function At(v: Value, path: seq<nat>): Value
    decreases |path|
  {
    if path == [] then v
    else if v.Arr? && path[0] < |v.items| then At(v.items[path[0]], path[1..])
    else Undefined
  }

  /** A path that addresses one element of an array of this shape. */
  predicate ValidPath(path: seq<nat>, shape: seq<nat>)
  {
    |path| == |shape| && forall k :: 0 <= k < |path| ==> path[k] < shape[k]
  }

  /** Two regular arrays of one shape that agree at every position are the same array. */
  lemma {:induction false} ShapeExtensionality(a: Value, b: Value, shape: seq<nat>)
    requires HasShape(a, shape) && HasShape(b, shape)
    requires forall path :: ValidPath(path, shape) ==> At(a, path) == At(b, path)
    ensures a == b
    decreases shape
  {
    if shape == [] {
      assert ValidPath([], shape);
    } else {
      forall i | 0 <= i < shape[0]
        ensures a.items[i] == b.items[i]
      {
        forall p | ValidPath(p, shape[1..])
          ensures At(a.items[i], p) == At(b.items[i], p)
        {
          var path: seq<nat> := [i] + p;
          assert path[1..] == p;
          assert ValidPath(path, shape);
        }
        ShapeExtensionality(a.items[i], b.items[i], shape[1..]);
      }
      assert a.items == b.items;
    }
  }

  lemma ReverseSnoc<T>(s: seq<T>, x: T)
    ensures Reverse(s + [x]) == [x] + Reverse(s)
  {
    assert forall i :: 0 <= i < |s| + 1 ==> Reverse(s + [x])[i] == ([x] + Reverse(s))[i];
  }

  lemma ReverseCons<T>(x: T, s: seq<T>)
    ensures Reverse([x] + s) == Reverse(s) + [x]
  {
    assert forall i :: 0 <= i < |s| + 1 ==> Reverse([x] + s)[i] == (Reverse(s) + [x])[i];
  }

  // ----- reshape -----

  /** The number of passes of `for (i = 0; i < n / s; i++)` when s is positive. */
  function ChunkCount(n: int, s: int): nat
    requires s > 0
    decreases n
  {
    if n <= 0 then 0 else 1 + ChunkCount(n - s, s)
  }

  /** The loop test `i < n / s` is `i * s < n`, which holds for exactly ChunkCount(n, s) passes. */
  lemma {:induction false} ChunkCountTest(n: int, s: int, i: nat)
    requires s > 0
    ensures i * s < n <==> i < ChunkCount(n, s)
    decreases i
  {
    MulLeMono(0, i, s);
    if i > 0 && n > 0 {
      ChunkCountTest(n - s, s, i - 1);
      assert (i - 1) * s == i * s - s;
    }
  }

  lemma {:induction false} ChunkCountExact(s: int, m: nat)
    requires s > 0
    ensures ChunkCount(s * m, s) == m
  {
    if m > 0 {
      MulLeMono(1, m, s);
      assert s * m - s == s * (m - 1);
      ChunkCountExact(s, m - 1);
    }
  }

  /** One level of reshape: the slices `items.slice(i*s, (i+1)*s)` for every pass of the loop. */
  function Chunks(items: seq<Value>, s: int): seq<Value>
  {
    if s <= 0 then [] else ChunkRun(items, s, ChunkCount(|items|, s))
  }

  /** The first n slices of one level. */
  function ChunkRun(items: seq<Value>, s: int, n: nat): seq<Value>
    requires s > 0
  {
    if n == 0 then [] else ChunkRun(items, s, n - 1) + [Slice(items, (n - 1) * s, n * s)]
  }

  /** `items.slice(a, b)` for 0 <= a <= b: the end is clamped to the length. */
  function Slice(items: seq<Value>, a: nat, b: nat): Value
    requires a <= b
  {
    Arr(items[Min(a, |items|)..Min(b, |items|)])
  }

  lemma {:induction false} ChunkRunLength(items: seq<Value>, s: int, n: nat)
    requires s > 0
    ensures |ChunkRun(items, s, n)| == n
  {
    if n > 0 {
      ChunkRunLength(items, s, n - 1);
    }
  }

  lemma {:induction false} ChunkRunAt(items: seq<Value>, s: int, n: nat)
    requires s > 0
    ensures |ChunkRun(items, s, n)| == n
    ensures forall t :: 0 <= t < n ==> ChunkRun(items, s, n)[t] == Slice(items, t * s, t * s + s)
  {
    if n > 0 {
      ChunkRunAt(items, s, n - 1);
      assert n * s == (n - 1) * s + s;
    }
  }

  /** Chunking at each of `sizes` in turn, the first size innermost. */
  function Nest(items: seq<Value>, sizes: seq<int>): seq<Value>
    decreases |sizes|
  {
    if sizes == [] then items else Nest(Chunks(items, sizes[0]), sizes[1..])
  }

  function ElementCountMessage(count: int, wanted: int): string
  {
    "Number of elements must not change. (" + IntToString(count) + " => " + IntToString(wanted) + ")"
  }

  function AllButLast(s: seq<int>): seq<int>
  {
    if s == [] then [] else s[..|s| - 1]
  }

  /**
   * What `reshape(array, sizes)` returns or throws: the leaves of `value`
   * chunked at every size but the last, sizes[0] innermost. A non-array
   * throws before anything is computed, since it has no `flat` method.
   */
  function ReshapeSpec(value: Value, sizes: seq<int>): Outcome<Value>
  {
    if !value.Arr? then Err(TypeError)
    else if Prod(sizes) != |Leaves(value)| then
      Err(ErrorObject(ElementCountMessage(|Leaves(value)|, Prod(sizes))))
    else Ok(Arr(Nest(Leaves(value), AllButLast(sizes))))
  }

  /** prod(size(tmp)) of a flat array is its length. */
  lemma FlatSize(flat: seq<Value>)
    requires forall i :: 0 <= i < |flat| ==> !flat[i].Arr?
    ensures Prod(Size(Arr(flat))) == |flat|
  {
    assert Size(Arr(flat)) == [|flat|];
    assert [|flat|][..0] == [];
  }

  /**
   * The element-count bookkeeping that keeps reshape's chunk loop finite:
   * when the current level holds Π sizes elements, chunking it at sizes[0]
   * leaves Π sizes[1..], and a zero size only ever meets an empty level.
   */
  lemma LevelCount(items: seq<Value>, sizes: seq<int>)
    requires sizes != []
    requires |items| == 0 || |items| == Prod(sizes)
    ensures sizes[0] == 0 ==> |items| == 0
    ensures |Chunks(items, sizes[0])| == 0 || |Chunks(items, sizes[0])| == Prod(sizes[1..])
  {
    var size, rest := sizes[0], Prod(sizes[1..]);
    ProdFirst(sizes);
    if size > 0 {
      ChunkRunLength(items, size, ChunkCount(|items|, size));
      if |items| > 0 {
        PositiveFactor(size, rest);
        ChunkCountExact(size, rest);
      }
    }
  }

  lemma PositiveFactor(a: int, b: int)
    requires a > 0 && a * b > 0
    ensures b > 0
  {
    if b <= 0 {
      MulLeMono(b, 0, a);
    }
  }

  /** One pass of reshape's outer loop: push `tmp.slice(i*size, (i+1)*size)` while i < tmp.length / size. */
  method ChunkLevel(tmp: seq<Value>, size: int) returns (chunks: seq<Value>)
    requires size == 0 ==> |tmp| == 0
    ensures chunks == Chunks(tmp, size)
  {
    chunks := [];
    var i := 0;
    // for a negative size, tmp.length / size is not positive and the loop does not run
    while size > 0 && i * size < |tmp|
      invariant size > 0 ==> 0 <= i <= ChunkCount(|tmp|, size) && chunks == ChunkRun(tmp, size, i)
      invariant size <= 0 ==> i == 0 && chunks == []
      decreases if size > 0 then ChunkCount(|tmp|, size) - i else 0
    {
      ChunkCountTest(|tmp|, size, i);
      chunks := chunks + [Arr(tmp[Min(i * size, |tmp|)..Min(i * size + size, |tmp|)])];
      i := i + 1;
    }
    if size > 0 {
      ChunkCountTest(|tmp|, size, i);
    }
  }

  /**
   * `reshape(array, sizes)`. The caller's `sizes` array is reversed in
   * place (it is the same object as `matlabDim`). Each pass of the outer
   * loop chunks the current level at the next size.
   */
  method Reshape(value: Value, sizes: array<int>) returns (r: Outcome<Value>)
    modifies sizes
    ensures sizes[..] == Reverse(old(sizes[..]))
    ensures r == ReshapeSpec(value, old(sizes[..]))
  {
    ghost var original := sizes[..];
    ReverseInPlace(sizes);
    var matlabDim := sizes;
    if !value.Arr? {
      return Err(TypeError);
    }
    var tmp := Leaves(value);
    var count := Prod(Size(Arr(tmp)));
    var wanted := Prod(sizes[..]);
    ReshapeCounts(value, original, sizes[..]);
    if wanted != count {
      return Err(ErrorObject(ElementCountMessage(count, wanted)));
    }
    tmp := ChunkLevels(tmp, matlabDim, original);
    return Ok(Arr(tmp));
  }

  /**
   * Reshape's outer loop: for each entry of the reversed sizes from the
   * last down to index 1 (the original sizes[0] up to the one before the
   * last), chunk the current level at that size.
   */
  method ChunkLevels(flat: seq<Value>, matlabDim: array<int>, ghost original: seq<int>) returns (tmp: seq<Value>)
    requires matlabDim[..] == Reverse(original)
    requires |flat| == Prod(original)
    ensures tmp == Nest(flat, AllButLast(original))
  {
    tmp := flat;
    ghost var dims := AllButLast(original);
    ghost var done := 0;
    var sizeIndex := matlabDim.Length - 1;
    while sizeIndex > 0
      invariant done == matlabDim.Length - 1 - sizeIndex
      invariant 0 <= done <= |dims|
      invariant Nest(tmp, dims[done..]) == Nest(flat, dims)
      invariant |tmp| == 0 || |tmp| == Prod(original[done..])
      decreases sizeIndex
    {
      var size := matlabDim[sizeIndex];
      assert size == dims[done] by {
        assert matlabDim[..][sizeIndex] == size;
      }
      LevelCount(tmp, original[done..]);
      var chunks := ChunkLevel(tmp, size);
      assert dims[done..][1..] == dims[done + 1..];
      tmp := chunks;
      sizeIndex := sizeIndex - 1;
      done := done + 1;
    }
    assert dims[done..] == [];
  }

  /** The two element counts reshape compares: prod(size(flat)) and prod(sizes) after the reversal. */
  lemma ReshapeCounts(value: Value, original: seq<int>, reversed: seq<int>)
    requires value.Arr? && reversed == Reverse(original)
    ensures Prod(Size(Arr(Leaves(value)))) == |Leaves(value)|
    ensures Prod(reversed) == Prod(original)
    ensures |reversed| == |original|
    ensures forall j :: 0 <= j < |reversed| ==> reversed[j] == original[|original| - 1 - j]
  {
    LeavesAreLeaves(value);
    FlatSize(Leaves(value));
    ProdReverse(original);
  }

  // ----- what reshape does to every element -----

  /** Chunking m·s elements at s gives m slices of s consecutive elements. */
  lemma ChunkSlices(items: seq<Value>, s: nat, m: nat)
    requires s >= 1 && |items| == s * m
    ensures |Chunks(items, s)| == m
    ensures forall t :: 0 <= t < m ==> t * s + s <= |items| && Chunks(items, s)[t] == Arr(items[t * s..t * s + s])
  {
    ChunkCountExact(s, m);
    ChunkRunAt(items, s, m);
    forall t | 0 <= t < m
      ensures t * s + s <= |items| && Chunks(items, s)[t] == Arr(items[t * s..t * s + s])
    {
      MulLeMono(t + 1, m, s);
      MulSucc(t, s);
      MulLeMono(0, t, s);
      var a := t * s;
      assert 0 <= a && a + s <= |items|;
      assert Slice(items, a, a + s) == Arr(items[a..a + s]);
    }
  }

  /**
   * The position in the flat element list of the element that reshape puts
   * at `path` (outermost index first), for `sizes` listed innermost first.
   */
  function ReshapeIndex(sizes: seq<nat>, path: seq<nat>): int
    requires |path| == |sizes|
  {
    if sizes == [] then 0
    else path[|path| - 1] + sizes[0] * ReshapeIndex(sizes[1..], path[..|path| - 1])
  }

  /** That position is sub2ind's linear index of the reversed path: reshape and sub2ind agree. */
  lemma {:induction false} ReshapeIndexIsLinearIndex(sizes: seq<nat>, path: seq<nat>)
    requires |path| == |sizes|
    ensures ReshapeIndex(sizes, path) == LinearIndex(sizes, Reverse(path))
  {
    if sizes != [] {
      var n := |path| - 1;
      var lower := path[..n];
      ReshapeIndexIsLinearIndex(sizes[1..], lower);
      assert path == lower + [path[n]];
      ReverseSnoc<nat>(lower, path[n]);
      var subs := Reverse(path);
      assert subs == [path[n]] + Reverse(lower);
      LinearIndexFirstFastest(sizes, subs);
      assert subs[1..] == Reverse(lower);
    }
  }

  /** The level sizes of the result of Nest are the chunk sizes, last chunked outermost. */
  lemma {:induction false} NestShape(items: seq<Value>, ss: seq<nat>, last: nat, inner: seq<nat>)
    requires forall k :: 0 <= k < |ss| ==> ss[k] >= 1
    requires last >= 1
    requires |items| == Prod(ss) * last
    requires forall i :: 0 <= i < |items| ==> HasShape(items[i], inner)
    ensures HasShape(Arr(Nest(items, ss)), Reverse(ss + [last]) + inner)
    decreases |ss|
  {
    if ss == [] {
      assert Reverse(ss + [last]) + inner == [last] + inner;
      assert ([last] + inner)[1..] == inner;
    } else {
      var s, rest := ss[0], ss[1..];
      NestSplit(items, ss, last);
      var m := Prod(rest) * last;
      ChunkShapes(items, s, m, inner);
      NestShape(Chunks(items, s), rest, last, [s] + inner);
      ShapeOfLevels(s, rest, last, inner);
      assert ss == [s] + rest;
    }
  }

  lemma ShapeOfLevels(s: nat, rest: seq<nat>, last: nat, inner: seq<nat>)
    ensures Reverse([s] + rest + [last]) + inner == Reverse(rest + [last]) + ([s] + inner)
  {
    assert [s] + rest + [last] == [s] + (rest + [last]);
    ReverseCons<nat>(s, rest + [last]);
  }

  /** Chunks of s items of one shape have shape [s] + that shape. */
  lemma ChunkShapes(items: seq<Value>, s: nat, m: nat, inner: seq<nat>)
    requires s >= 1 && |items| == s * m
    requires forall i :: 0 <= i < |items| ==> HasShape(items[i], inner)
    ensures |Chunks(items, s)| == m
    ensures forall t :: 0 <= t < m ==> HasShape(Chunks(items, s)[t], [s] + inner)
  {
    ChunkSlices(items, s, m);
    forall t | 0 <= t < m
      ensures HasShape(Chunks(items, s)[t], [s] + inner)
    {
      SliceShape(items, t * s, s, inner);
    }
  }

  lemma SliceShape(items: seq<Value>, start: nat, s: nat, inner: seq<nat>)
    requires start + s <= |items|
    requires forall i :: 0 <= i < |items| ==> HasShape(items[i], inner)
    ensures HasShape(Arr(items[start..start + s]), [s] + inner)
  {
    var c := items[start..start + s];
    assert ([s] + inner)[1..] == inner;
    assert forall i :: 0 <= i < |c| ==> c[i] == items[start + i];
  }

  /** The element count of one level splits as s0 · (the count of the next level). */
  lemma NestSplit(items: seq<Value>, ss: seq<nat>, last: nat)
    requires ss != [] && forall k :: 0 <= k < |ss| ==> ss[k] >= 1
    requires last >= 1
    requires |items| == Prod(ss) * last
    ensures Prod(ss[1..]) >= 1
    ensures |items| == ss[0] * (Prod(ss[1..]) * last)
    ensures Nest(items, ss) == Nest(Chunks(items, ss[0]), ss[1..])
  {
    ProdFirst(ss);
    ProdPositive(ss[1..]);
    var s0, p := ss[0], Prod(ss[1..]);
    assert Prod(ss) == s0 * p;
    MulAssoc(s0, p, last);
  }

  lemma MulAssoc(a: int, b: int, c: int)
    ensures (a * b) * c == a * (b * c)
  {
  }


  /** The element at position c0 of chunk t is item t·s + c0. */
  lemma ChunkStepAt(items: seq<Value>, s: nat, m: nat, t: nat, c0: nat, p: seq<nat>)
    requires s >= 1 && |items| == s * m && t < m && c0 < s
    ensures |Chunks(items, s)| == m
    ensures 0 <= t * s + c0 < |items|
    ensures At(Chunks(items, s)[t], [c0] + p) == At(items[t * s + c0], p)
  {
    ChunkSlices(items, s, m);
    MulLeMono(t + 1, m, s);
    MulSucc(t, s);
    MulLeMono(0, t, s);
    var c := items[t * s..t * s + s];
    assert Chunks(items, s)[t] == Arr(c);
    assert ([c0] + p)[1..] == p;
    assert c[c0] == items[t * s + c0];
  }

  lemma ReshapeIndexStep(ss: seq<nat>, last: nat, path: seq<nat>)
    requires ss != [] && |path| > |ss|
    ensures ReshapeIndex(ss + [last], path[..|ss| + 1])
         == ReshapeIndex(ss[1..] + [last], path[..|ss|]) * ss[0] + path[|ss|]
  {
    var K := |ss|;
    SnocParts(ss, last);
    PrefixParts(path, K);
    ReshapeIndexCons(ss + [last], path[..K + 1], ss[1..] + [last], path[..K], ss[0], path[K]);
  }

  lemma SnocParts(ss: seq<nat>, last: nat)
    requires ss != []
    ensures (ss + [last])[0] == ss[0] && (ss + [last])[1..] == ss[1..] + [last]
  {
  }

  lemma PrefixParts(path: seq<nat>, k: nat)
    requires k < |path|
    ensures |path[..k + 1]| == k + 1 && path[..k + 1][k] == path[k] && path[..k + 1][..k] == path[..k]
  {
  }

  /** ReshapeIndex with the first size and the last path entry separated out. */
  lemma ReshapeIndexCons(a: seq<nat>, p: seq<nat>, b: seq<nat>, q: seq<nat>, head: nat, x: nat)
    requires |a| == |p| && a != [] && a[0] == head && a[1..] == b
    requires p[|p| - 1] == x && p[..|p| - 1] == q
    ensures ReshapeIndex(a, p) == ReshapeIndex(b, q) * head + x
  {
    AddMulComm(x, head, ReshapeIndex(b, q));
  }

  lemma AddMulComm(x: int, y: int, t: int)
    ensures x + y * t == t * y + x
  {
  }

  /** The path's entry at level |ss| is below the chunk size ss[0]. */
  lemma PathEntryBound(ss: seq<nat>, last: nat, inner: seq<nat>, path: seq<nat>)
    requires ss != [] && ValidPath(path, Reverse(ss[1..] + [last]) + ([ss[0]] + inner))
    ensures |path| > |ss| && path[|ss|] < ss[0]
  {
    var K := |ss|;
    assert |Reverse(ss[1..] + [last])| == K;
    assert (Reverse(ss[1..] + [last]) + ([ss[0]] + inner))[K] == ss[0];
  }

  /**
   * After chunking at every size of `ss`, the element at a path is the item
   * at the reshape position of the outer part of the path, followed into
   * that item by the rest of the path.
   */
  lemma {:induction false} NestAtPath(items: seq<Value>, ss: seq<nat>, last: nat, inner: seq<nat>, path: seq<nat>)
    requires forall k :: 0 <= k < |ss| ==> ss[k] >= 1
    requires last >= 1
    requires |items| == Prod(ss) * last
    requires ValidPath(path, Reverse(ss + [last]) + inner)
    ensures 0 <= ReshapeIndex(ss + [last], path[..|ss| + 1]) < |items|
    ensures At(Arr(Nest(items, ss)), path) == At(items[ReshapeIndex(ss + [last], path[..|ss| + 1])], path[|ss| + 1..])
    decreases |ss|
  {
    if ss == [] {
      assert Reverse(ss + [last]) == [last];
      assert ReshapeIndex([last], path[..1]) == path[0];
    } else {
      var s, rest := ss[0], ss[1..];
      NestLevel(items, ss, last, inner, path);
      var chunks := Chunks(items, s);
      NestAtPath(chunks, rest, last, [s] + inner, path);
      NestIndexStep(items, ss, last, inner, path);
    }
  }

  /** One level of chunking: what the recursive call of NestAtPath needs. */
  lemma NestLevel(items: seq<Value>, ss: seq<nat>, last: nat, inner: seq<nat>, path: seq<nat>)
    requires ss != [] && forall k :: 0 <= k < |ss| ==> ss[k] >= 1
    requires last >= 1
    requires |items| == Prod(ss) * last
    requires ValidPath(path, Reverse(ss + [last]) + inner)
    ensures ss[0] >= 1 && |Chunks(items, ss[0])| == Prod(ss[1..]) * last
    ensures |items| == ss[0] * (Prod(ss[1..]) * last)
    ensures Nest(items, ss) == Nest(Chunks(items, ss[0]), ss[1..])
    ensures ValidPath(path, Reverse(ss[1..] + [last]) + ([ss[0]] + inner))
  {
    var s, rest := ss[0], ss[1..];
    NestSplit(items, ss, last);
    var m := Prod(rest) * last;
    ChunkCountExact(s, m);
    ChunkRunLength(items, s, m);
    ShapeOfLevels(s, rest, last, inner);
    assert ss == [s] + rest;
  }

  /** The reshape position one level down, and the element it names. */
  lemma NestIndexStep(items: seq<Value>, ss: seq<nat>, last: nat, inner: seq<nat>, path: seq<nat>)
    requires ss != [] && ss[0] >= 1 && last >= 1
    requires |items| == ss[0] * (Prod(ss[1..]) * last)
    requires ValidPath(path, Reverse(ss[1..] + [last]) + ([ss[0]] + inner))
    requires 0 <= ReshapeIndex(ss[1..] + [last], path[..|ss|]) < Prod(ss[1..]) * last
    ensures 0 <= ReshapeIndex(ss + [last], path[..|ss| + 1]) < |items|
    ensures |Chunks(items, ss[0])| == Prod(ss[1..]) * last
    ensures At(Chunks(items, ss[0])[ReshapeIndex(ss[1..] + [last], path[..|ss|])], path[|ss|..])
         == At(items[ReshapeIndex(ss + [last], path[..|ss| + 1])], path[|ss| + 1..])
  {
    var s, rest := ss[0], ss[1..];
    var m := Prod(rest) * last;
    var K := |ss|;
    var t := ReshapeIndex(rest + [last], path[..K]);
    PathEntryBound(ss, last, inner, path);
    var c0 := path[K];
    ReshapeIndexStep(ss, last, path);
    assert ReshapeIndex(ss + [last], path[..K + 1]) == t * s + c0;
    assert |items| == s * m;
    var p := path[K + 1..];
    assert path[K..] == [c0] + p;
    ChunkStepAt(items, s, m, t, c0, p);
  }

  /** The nesting reshape builds, for sizes all at least 1 and the right element count. */
  lemma ReshapeNest(value: Value, sizes: seq<nat>)
    requires value.Arr? && |sizes| >= 1
    requires forall k :: 0 <= k < |sizes| ==> sizes[k] >= 1
    requires |Leaves(value)| == Prod(sizes)
    ensures ReshapeSpec(value, sizes) == Ok(Arr(Nest(Leaves(value), sizes[..|sizes| - 1])))
  {
    assert AllButLast(sizes) == sizes[..|sizes| - 1];
  }

  /**
   * reshape with sizes all at least 1 and the right element count gives an
   * array of shape reverse(sizes).
   */
  lemma ReshapeShape(value: Value, sizes: seq<nat>)
    requires value.Arr? && |sizes| >= 1
    requires forall k :: 0 <= k < |sizes| ==> sizes[k] >= 1
    requires |Leaves(value)| == Prod(sizes)
    ensures ReshapeSpec(value, sizes).Ok?
    ensures HasShape(ReshapeSpec(value, sizes).value, Reverse<nat>(sizes))
  {
    var flat := Leaves(value);
    var n := |sizes| - 1;
    var ss: seq<nat>, last: nat := sizes[..n], sizes[n];
    assert sizes == ss + [last];
    ReshapeNest(value, sizes);
    LeavesAreLeaves(value);
    assert forall i :: 0 <= i < |flat| ==> HasShape(flat[i], []) by {
      forall i | 0 <= i < |flat| ensures HasShape(flat[i], []) {
        assert flat[i] in flat;
      }
    }
    NestShape(flat, ss, last, []);
    assert Reverse<nat>(sizes) + [] == Reverse<nat>(sizes);
  }

  /**
   * At each position of that array, reshape puts the flat element whose
   * index is sub2ind(sizes, reversed position): sizes[0] varies fastest.
   */
  lemma ReshapeAt(value: Value, sizes: seq<nat>, path: seq<nat>)
    requires value.Arr? && |sizes| >= 1
    requires forall k :: 0 <= k < |sizes| ==> sizes[k] >= 1
    requires |Leaves(value)| == Prod(sizes)
    requires ValidPath(path, Reverse<nat>(sizes))
    ensures ReshapeSpec(value, sizes).Ok?
    ensures 0 <= LinearIndex(sizes, Reverse<nat>(path)) < |Leaves(value)|
    ensures At(ReshapeSpec(value, sizes).value, path) == Leaves(value)[LinearIndex(sizes, Reverse<nat>(path))]
  {
    var flat := Leaves(value);
    var n := |sizes| - 1;
    var ss: seq<nat>, last: nat := sizes[..n], sizes[n];
    assert sizes == ss + [last];
    ReshapeNest(value, sizes);
    assert Reverse<nat>(sizes) + [] == Reverse<nat>(sizes);
    NestAtPath(flat, ss, last, [], path);
    assert path[..|ss| + 1] == path;
    assert path[|ss| + 1..] == [];
    ReshapeIndexIsLinearIndex(sizes, path);
  }

  lemma {:induction false} ProdHasZero(s: seq<int>, k: nat)
    requires k < |s| && s[k] == 0
    ensures Prod(s) == 0
  {
    if k < |s| - 1 {
      ProdHasZero(s[..|s| - 1], k);
    }
  }

  lemma {:induction false} NestOfEmpty(sizes: seq<int>)
    ensures Nest([], sizes) == []
    decreases |sizes|
  {
    if sizes != [] {
      if sizes[0] > 0 {
        assert ChunkCount(0, sizes[0]) == 0;
      }
      NestOfEmpty(sizes[1..]);
    }
  }

  lemma LeavesSeqSingle(x: Value)
    ensures LeavesSeq([x]) == Leaves(x)
  {
    assert [x][1..] == [];
  }

  /** The first n chunks hold, in order, the first n·s elements. */
  lemma {:induction false} ChunkRunLeaves(items: seq<Value>, s: int, n: nat)
    requires s > 0
    ensures LeavesSeq(ChunkRun(items, s, n)) == LeavesSeq(items[..Min(n * s, |items|)])
  {
    if n == 0 {
      assert items[..0] == [];
    } else {
      var lo, hi := (n - 1) * s, n * s;
      assert lo <= hi by { MulLeMono(n - 1, n, s); }
      var a, b := Min(lo, |items|), Min(hi, |items|);
      var last := Slice(items, lo, hi);
      assert last == Arr(items[a..b]);
      assert ChunkRun(items, s, n) == ChunkRun(items, s, n - 1) + [last];
      ChunkRunLeaves(items, s, n - 1);
      LeavesSeqAppend(ChunkRun(items, s, n - 1), [last]);
      LeavesSeqSingle(last);
      assert items[..b] == items[..a] + items[a..b];
      LeavesSeqAppend(items[..a], items[a..b]);
    }
  }

  lemma ChunksLeaves(items: seq<Value>, s: int)
    requires s > 0
    ensures LeavesSeq(Chunks(items, s)) == LeavesSeq(items)
  {
    var n := ChunkCount(|items|, s);
    ChunkCountTest(|items|, s, n);
    ChunkRunLeaves(items, s, n);
    assert items[..|items|] == items;
  }

  lemma {:induction false} NestLeaves(items: seq<Value>, sizes: seq<int>)
    requires forall k :: 0 <= k < |sizes| ==> sizes[k] >= 1
    ensures LeavesSeq(Nest(items, sizes)) == LeavesSeq(items)
    decreases |sizes|
  {
    if sizes != [] {
      ChunksLeaves(items, sizes[0]);
      NestLeaves(Chunks(items, sizes[0]), sizes[1..]);
    }
  }

  /** For sizes that are not negative, reshape keeps the elements and their depth-first order. */
  lemma ReshapeKeepsLeaves(value: Value, sizes: seq<int>)
    requires forall k :: 0 <= k < |sizes| ==> sizes[k] >= 0
    requires ReshapeSpec(value, sizes).Ok?
    ensures Leaves(ReshapeSpec(value, sizes).value) == Leaves(value)
  {
    var flat := Leaves(value);
    var dims := AllButLast(sizes);
    LeavesAreLeaves(value);
    LeavesSeqOfLeaves(flat);
    if k :| 0 <= k < |dims| && dims[k] == 0 {
      ProdHasZero(sizes, k);
      NestOfEmpty(dims);
    } else {
      NestLeaves(flat, dims);
    }
  }
}
