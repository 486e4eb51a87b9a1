// The loader the viewer uses, load_untouch_nifti.js: load_untouch_nii,
// load_untouch_nii_img, and its read_image with the datatype table, the
// whole-block and per-frame reads, the global range update, the final
// reshape and the update of dim[4..7].

module UntouchLoader {
  import opened JsValues
  import opened Bytes
  import opened FileCursor
  import opened Matlab
  import opened MatlabLayout
  import opened MatlabPermute
  import opened NiftiImage
  import NiftiHeader
  import AnalyzeHeader
  import NiftiExtension

  /** An image_dimension record as the headers deliver it, with its eight dim entries. */
  type Dime8 = d: ImageDime | |d.dim| == 8
    witness ImageDime(0, 0, [0, 0, 0, 0, 0, 0, 0, 0], 0.0, 0.0, 0.0)

  // ----- the datatype table -----

  /** What the table gives an accepted datatype: bits per voxel and the kind each value is read as. */
  datatype Voxel = Voxel(bitpix: int, kind: Kind)

  /**
   * `datatypeMap[hdr.dime.datatype]`. The precisions 'int64' and 'uint64'
   * are no FILE type, so voxels of those datatypes read as undefined.
   */
  function VoxelOf(code: int): Option<Voxel>
  {
    if code == 2 then Some(Voxel(8, Uint8))
    else if code == 4 then Some(Voxel(16, Int16))
    else if code == 8 then Some(Voxel(32, Int32))
    else if code == 16 then Some(Voxel(32, Float32))
    else if code == 64 then Some(Voxel(64, Float64))
    else if code == 128 then Some(Voxel(24, Uint8))
    else if code == 256 then Some(Voxel(8, Int8))
    else if code == 511 then Some(Voxel(96, Float32))
    else if code == 512 then Some(Voxel(16, Uint16))
    else if code == 768 then Some(Voxel(32, Uint32))
    else if code == 1024 then Some(Voxel(64, KindOf("int64")))
    else if code == 1280 then Some(Voxel(64, KindOf("uint64")))
    else None
  }

  /** The RGB datatypes, stored as three values per voxel. */
  predicate IsRgb(code: int)
  {
    code == 128 || code == 511
  }

  const UnsupportedMessage := "This datatype is not supported"

  /**
   * Twelve datatypes are accepted, complex 32 and 1792 among the rejected
   * ones; only the two 64-bit integer types read as no FILE type; and for
   * every other accepted type bitpix is the width of the value read, three
   * times over for RGB.
   */
  lemma VoxelTable(code: int)
    ensures VoxelOf(code).Some? <==> code in {2, 4, 8, 16, 64, 128, 256, 511, 512, 768, 1024, 1280}
    ensures VoxelOf(code).Some? ==> (VoxelOf(code).value.kind == Unknown <==> code == 1024 || code == 1280)
    ensures VoxelOf(code).Some? && VoxelOf(code).value.kind != Unknown ==>
      FileCursor.IsNumeric(VoxelOf(code).value.kind) &&
      VoxelOf(code).value.bitpix == 8 * Width(VoxelOf(code).value.kind) * (if IsRgb(code) then 3 else 1)
  {
  }

  // ----- where and how much read_image reads -----

  /**
   * Where the voxels start: vox_offset for a single .nii file (filetype 2),
   * byte 0 otherwise. The seek keeps it as it is, fraction included; each
   * get then truncates its own position.
   */
  function StartOf(filetype: int, voxOffset: real): real
  {
    if filetype == 2 then voxOffset else 0.0
  }

  /** img_siz: the values of the whole volume dim[1..7], three per voxel for RGB. */
  function ImageSize(code: int, dim: seq<int>): int
    requires |dim| == 8
  {
    Prod(dim[1..8]) * (if IsRgb(code) then 3 else 1)
  }

  /** Eight dimensions, each from dim[1] on at least 1, as after the clamp. */
  predicate Clamp8(dim: seq<int>)
  {
    |dim| == 8 && forall k :: 1 <= k < 8 ==> dim[k] >= 1
  }

  /** The layout read_image settles on before reading: the clamped dims, the start and img_siz. */
  function LayoutOf(dime: Dime8, filetype: int, v: Voxel): (l: Layout)
    ensures Clamp8(l.dim) && l.dim == Clamped(dime.dim) && l.bitpix == v.bitpix
    ensures KindOf(l.precision) == v.kind
  {
    var dim := Clamped(dime.dim);
    Layout(v.bitpix, TagOf(v.kind), dim, StartOf(filetype, dime.voxOffset), ImageSize(dime.datatypeCode, dim))
  }

  /** The selection lists img_idx, dim5_idx, dim6_idx and dim7_idx. */
  datatype Lists = Lists(t: seq<int>, d5: seq<int>, d6: seq<int>, d7: seq<int>)

  function Lengths(ls: Lists): seq<nat>
  {
    [|ls.t|, |ls.d5|, |ls.d6|, |ls.d7|]
  }

  predicate AllEmpty(ls: Lists)
  {
    ls.t == [] && ls.d5 == [] && ls.d6 == [] && ls.d7 == []
  }

  /**
   * The test for one read of the whole block: dim[4..7] all 1, or no list
   * given. (Its first disjunct, datatype 1, never passes the table.)
   */
  predicate WholeBlock(dim: seq<int>, ls: Lists)
    requires |dim| == 8
  {
    dim[4..8] == [1, 1, 1, 1] || AllEmpty(ls)
  }

  /** After a whole-block read an empty list stands for every index 0..dim[k]-1. */
  function DefaultedLists(ls: Lists, dim: seq<int>): Lists
    requires Clamp8(dim)
  {
    Lists(Defaulted(ls.t, dim[4]), Defaulted(ls.d5, dim[5]), Defaulted(ls.d6, dim[6]), Defaulted(ls.d7, dim[7]))
  }

  /**
   * The image read_image holds after its reads, with the lists as they are
   * afterwards: one fread of img_siz values at the start, or one per frame
   * of the selection, in the order of the nested loops.
   */
  function ReadVoxels(l: Layout, src: Source, ls: Lists): Outcome<(Value, Lists)>
    requires Clamp8(l.dim)
  {
    if WholeBlock(l.dim, ls) then
      var img :- ReadSpec(Some(src.data), l.start, src.littleEndian, l.size, KindOf(l.precision), src.fmt).0;
      Ok((img, DefaultedLists(ls, l.dim)))
    else
      var frames :- ReadFrames(l, src, Selection(ls.t, ls.d5, ls.d6, ls.d7));
      Ok((Arr(frames), ls))
  }

  /** The image and header once the reads and the global range update are done. */
  datatype Voxels = Voxels(img: Value, dime: Dime8, lists: Lists)

  /**
   * read_image up to its `fid.fclose()`: the table lookup, the clamp, the
   * reads, `img.flat(Infinity)` (a TypeError unless img is an array) and
   * glmax/glmin over the top-level items of img.
   */
  function ReadImageSpec(dime: Dime8, filetype: int, src: Source, ls: Lists): Outcome<Voxels>
  {
    match VoxelOf(dime.datatypeCode)
    case None => Err(Thrown(UnsupportedMessage))
    case Some(v) =>
      var l := LayoutOf(dime, filetype, v);
      var read :- ReadVoxels(l, src, ls);
      if !read.0.Arr? then Err(TypeError)
      else
        var (hi, lo) := Extremes(read.0.items, dime.glmax, dime.glmin);
        Ok(Voxels(read.0, dime.(bitpix := v.bitpix, dim := l.dim, glmax := hi, glmin := lo), read.1))
  }

  /** The header read_image returns: dim[4..7] are the lengths of the non-empty lists. */
  function FinalDime(vx: Voxels): Dime8
  {
    vx.dime.(dim := SelectedDims(vx.dime.dim, Lengths(vx.lists)))
  }

  /** The sizes of the final reshape of a non-RGB image: the volume, then one level per list. */
  function VolumeSizes(dim: seq<int>, ls: Lists): seq<int>
    requires |dim| == 8
  {
    [dim[1], dim[2], dim[3], |ls.t|, |ls.d5|, |ls.d6|, |ls.d7|]
  }

  /** The end of read_image for a non-RGB datatype: reshape, dim update, unwrapping. */
  function Finished(vx: Voxels): Outcome<(Value, Dime8)>
  {
    var shaped :- ReshapeSpec(vx.img, VolumeSizes(vx.dime.dim, vx.lists));
    var img :- Unwrapped(shaped);
    Ok((img, FinalDime(vx)))
  }

  /**
   * The sizes of the RGB reshape: the three colour values first, or, for
   * datatype 128 with old_RGB, between d2 and d3; then one level per list.
   */
  function RgbSizes(code: int, dim: seq<int>, ls: Lists, oldRgb: bool): seq<nat>
    requires Clamp8(dim)
  {
    if code == 128 && oldRgb then [dim[1], dim[2], 3, dim[3]] + Lengths(ls)
    else [3, dim[1], dim[2], dim[3]] + Lengths(ls)
  }

  /** The permute order of the RGB arrangement: the colour level moved to fourth place. */
  function RgbOrder(code: int, oldRgb: bool): seq<int>
  {
    if code == 128 && oldRgb then [0, 1, 3, 2, 4, 5, 6, 7] else [1, 2, 3, 0, 4, 5, 6, 7]
  }

  /** What the RGB reshape receives: the values read, normalised first for datatype 511. */
  function RgbInput(code: int, img: Value, glmax: real, glmin: real, normalise: (Value, real, real) -> Value): Value
  {
    if code == 511 && img.Arr? then Arr(seq(|img.items|, i requires 0 <= i < |img.items| => normalise(img.items[i], glmax, glmin)))
    else img
  }

  /** Both RGB orders are permutations of the eight levels. */
  lemma RgbOrderValid(code: int, oldRgb: bool)
    ensures |RgbOrder(code, oldRgb)| == 8 && ValidOrder(RgbOrder(code, oldRgb))
  {
    var tail := [4, 5, 6, 7];
    assert Range(8) == [0, 1] + [2, 3] + tail;
    if code == 128 && oldRgb {
      assert RgbOrder(code, oldRgb) == [0, 1] + [3, 2] + tail;
      assert multiset([3, 2]) == multiset([2, 3]);
    } else {
      assert RgbOrder(code, oldRgb) == [1] + [2, 3] + [0] + tail;
      assert [0, 1] + [2, 3] + tail == [0] + [1] + [2, 3] + tail;
    }
  }

  /**
   * The RGB arrangement of an image: a reshape error is passed on, and a
   * successful reshape to sizes of at least 1 is permuted by the order.
   */
  ghost predicate RgbArranged(r: Outcome<Value>, img: Value, sizes: seq<nat>, order: seq<int>)
  {
    var shaped := ReshapeSpec(img, sizes);
    (shaped.Err? ==> r == Err(shaped.error)) &&
    (shaped.Ok? && |order| <= |sizes| && (forall k :: 0 <= k < |sizes| ==> sizes[k] >= 1) ==>
       r.Ok? && IsPermuted(r.value, shaped.value, Reverse(sizes), order))
  }

  /** The end of read_image after an RGB arrangement: dim update and unwrapping. */
  function RgbFinished(arranged: Outcome<Value>, vx: Voxels): Outcome<(Value, Dime8)>
  {
    var shaped :- arranged;
    var img :- Unwrapped(shaped);
    Ok((img, FinalDime(vx)))
  }

  /**
   * What read_image returns: an error before the arrangement is returned as
   * it is; a non-RGB image is finished as Finished says; an RGB image is
   * reshaped to RgbSizes, permuted by RgbOrder (after normalisation, for
   * datatype 511) and finished the same way.
   */
  ghost predicate ReadImageMeets(r: Outcome<(Value, Dime8)>, dime: Dime8, filetype: int, src: Source, ls: Lists,
                                 oldRgb: bool, normalise: (Value, real, real) -> Value)
  {
    var spec := ReadImageSpec(dime, filetype, src, ls);
    var code := dime.datatypeCode;
    (spec.Err? ==> r == Err(spec.error)) &&
    (spec.Ok? && !IsRgb(code) ==> r == Finished(spec.value)) &&
    (spec.Ok? && IsRgb(code) ==>
      var vx := spec.value;
      Clamp8(vx.dime.dim) &&
      exists arranged :: RgbArranged(arranged, RgbInput(code, vx.img, vx.dime.glmax, vx.dime.glmin, normalise),
                                     RgbSizes(code, vx.dime.dim, vx.lists, oldRgb), RgbOrder(code, oldRgb)) &&
                         r == RgbFinished(arranged, vx))
  }

  // ----- what the reads deliver -----

  /**
   * glmax and glmin only widen, and afterwards bound every top-level item of
   * the image that compares as a number: on the whole-block path, every
   * value read.
   */
  lemma RangeBounds(dime: Dime8, filetype: int, src: Source, ls: Lists)
    requires ReadImageSpec(dime, filetype, src, ls).Ok?
    ensures var vx := ReadImageSpec(dime, filetype, src, ls).value;
      vx.img.Arr? && dime.glmax <= vx.dime.glmax && vx.dime.glmin <= dime.glmin &&
      forall i :: 0 <= i < |vx.img.items| && NumberOf(vx.img.items[i]).Some? ==>
        vx.dime.glmin <= NumberOf(vx.img.items[i]).value <= vx.dime.glmax
  {
    var v := VoxelOf(dime.datatypeCode).value;
    var read := ReadVoxels(LayoutOf(dime, filetype, v), src, ls).value;
    ExtremesFacts(read.0.items, dime.glmax, dime.glmin);
  }

  /** Datatypes 1024 and 1280 read as undefined, so a whole-block read of them fails at `img.flat`. */
  lemma WholeBlockInt64Fails(dime: Dime8, filetype: int, src: Source, ls: Lists)
    requires dime.datatypeCode == 1024 || dime.datatypeCode == 1280
    requires WholeBlock(Clamped(dime.dim), ls)
    ensures ReadImageSpec(dime, filetype, src, ls) == Err(TypeError)
  {
    var l := LayoutOf(dime, filetype, VoxelOf(dime.datatypeCode).value);
    UnknownRead(Some(src.data), l.start, src.littleEndian, l.size, l.precision, src.fmt);
  }

  /** A numeric get that succeeds yields a number. */
  lemma GetAtIsNumber(buf: seq<Byte>, offset: int, littleEndian: bool, k: Kind, fmt: FloatFormat)
    requires FileCursor.IsNumeric(k) && GetAt(buf, offset, littleEndian, k, fmt).Ok?
    ensures GetAt(buf, offset, littleEndian, k, fmt).value.Num?
  {
  }

  /** A flat array of m numbers: what every selected frame is. */
  predicate FlatFrame(v: Value, m: nat)
  {
    v.Arr? && |v.items| == m && forall j :: 0 <= j < m ==> !v.items[j].Arr?
  }

  /** A frame of at least two numeric values is a flat array of img_siz numbers. */
  lemma FrameIsFlat(l: Layout, src: Source, s: Subscript)
    requires |l.dim| == 8 && FileCursor.IsNumeric(KindOf(l.precision)) && l.size >= 2
    requires FrameAt(l, src, s).Ok?
    ensures FlatFrame(FrameAt(l, src, s).value, l.size)
  {
    var idx := Sub2indSpec(l.dim[1..], [1, 1, 1, s.t, s.i5, s.i6, s.i7]).value;
    var off := FramePos(l, idx);
    ReadNumbers(Some(src.data), off, src.littleEndian, l.size, KindOf(l.precision), src.fmt);
  }

  /** Frames that are flat arrays of m values have |frames|·m leaves. */
  lemma {:induction false} FlatFramesLeaves(frames: seq<Value>, m: nat)
    requires forall k :: 0 <= k < |frames| ==> FlatFrame(frames[k], m)
    ensures |LeavesSeq(frames)| == |frames| * m
  {
    if frames != [] {
      var tail := frames[1..];
      forall k | 0 <= k < |tail|
        ensures FlatFrame(tail[k], m)
      {
        assert tail[k] == frames[k + 1];
      }
      FlatFramesLeaves(tail, m);
      assert FlatFrame(frames[0], m);
      LeavesSeqOfLeaves(frames[0].items);
      assert LeavesSeq(frames) == Leaves(frames[0]) + LeavesSeq(tail);
      var n := |tail|;
      assert |LeavesSeq(frames)| == m + n * m;
      MulSucc(n, m);
    }
  }

  /** A product of factors that are all at least 1 is at least 1, and at least 2 when one factor is. */
  lemma {:induction false} ProdBounds(s: seq<int>, k: int)
    requires forall i :: 0 <= i < |s| ==> s[i] >= 1
    ensures Prod(s) >= 1
    ensures 0 <= k < |s| && s[k] >= 2 ==> Prod(s) >= 2
    decreases |s|
  {
    if s != [] {
      var p := s[..|s| - 1];
      ProdBounds(p, k);
      MulLeMono(1, s[|s| - 1], Prod(p));
      if k == |s| - 1 && s[k] >= 2 {
        MulLeMono(2, s[k], Prod(p));
        MulLeMono(1, Prod(p), 2);
      }
    }
  }

  lemma Prod3(a: int, b: int, c: int)
    ensures Prod([a, b, c]) == (a * b) * c
  {
    assert [a][..0] == [];
    assert Prod([a]) == a;
    assert [a, b][..1] == [a];
    assert Prod([a, b]) == a * b;
    assert [a, b, c][..2] == [a, b];
  }

  lemma Prod4(a: int, b: int, c: int, d: int)
    ensures Prod([a, b, c, d]) == ((a * b) * c) * d
  {
    Prod3(a, b, c);
    assert [a, b, c, d][..3] == [a, b, c];
  }

  /**
   * img_siz is the volume d1·d2·d3 times the product of dim[4..7] (times 3
   * for RGB); when dim[4..7] are not all 1 that product is at least 2.
   */
  lemma ImageSizeSplit(code: int, dim: seq<int>)
    requires Clamp8(dim) && dim[4..8] != [1, 1, 1, 1]
    ensures var volume := (dim[1] * dim[2]) * dim[3];
      var depth := Prod(dim[4..8]);
      volume >= 1 && depth >= 2 &&
      ImageSize(code, dim) == (volume * depth) * (if IsRgb(code) then 3 else 1) &&
      ImageSize(code, dim) >= 2
  {
    var k :| 4 <= k < 8 && dim[k] >= 2;
    assert dim[1..8] == [dim[1], dim[2], dim[3]] + dim[4..8];
    ProdAppend([dim[1], dim[2], dim[3]], dim[4..8]);
    Prod3(dim[1], dim[2], dim[3]);
    ProdBounds([dim[1], dim[2], dim[3]], -1);
    ProdBounds(dim[4..8], k - 4);
    var volume := (dim[1] * dim[2]) * dim[3];
    var depth := Prod(dim[4..8]);
    MulLeMono(2, depth, volume);
    MulLeMono(1, volume, 2);
    MulLeMono(1, if IsRgb(code) then 3 else 1, volume * depth);
  }

  /** The sizes of the final reshape multiply to the volume times the number of frames selected. */
  lemma VolumeSizesProd(dim: seq<int>, ls: Lists)
    requires |dim| == 8
    ensures Prod(VolumeSizes(dim, ls)) == ((dim[1] * dim[2]) * dim[3]) * (|ls.d7| * (|ls.d6| * (|ls.d5| * |ls.t|)))
  {
    assert VolumeSizes(dim, ls) == [dim[1], dim[2], dim[3]] + [|ls.t|, |ls.d5|, |ls.d6|, |ls.d7|];
    ProdAppend([dim[1], dim[2], dim[3]], [|ls.t|, |ls.d5|, |ls.d6|, |ls.d7|]);
    Prod3(dim[1], dim[2], dim[3]);
    Prod4(|ls.t|, |ls.d5|, |ls.d6|, |ls.d7|);
  }

  /** N·(V·D) differs from V·N when N, V >= 1 and D >= 2. */
  lemma CountsDiffer(n: int, v: int, d: int)
    requires n >= 1 && v >= 1 && d >= 2
    ensures n * (v * d) != v * n
  {
    MulLeMono(2, d, n * v);
    MulLeMono(1, n, v);
    assert n * (v * d) == d * (n * v);
  }

  /**
   * The per-frame path yields one frame of img_siz values for every entry of
   * the selection.
   */
  lemma SelectiveLeaves(l: Layout, src: Source, ls: Lists)
    requires Clamp8(l.dim) && FileCursor.IsNumeric(KindOf(l.precision)) && l.size >= 2
    requires !WholeBlock(l.dim, ls) && ReadVoxels(l, src, ls).Ok?
    ensures var img := ReadVoxels(l, src, ls).value.0;
      var n := |ls.d7| * (|ls.d6| * (|ls.d5| * |ls.t|));
      img.Arr? && |Leaves(img)| == n * l.size && (n == 0 ==> img == Arr([]))
  {
    var sel := Selection(ls.t, ls.d5, ls.d6, ls.d7);
    var frames := ReadFrames(l, src, sel).value;
    ReadFramesFacts(l, src, sel);
    SelectionCount(ls.t, ls.d5, ls.d6, ls.d7);
    forall j | 0 <= j < |frames|
      ensures FlatFrame(frames[j], l.size)
    {
      FrameIsFlat(l, src, sel[j]);
    }
    FlatFramesLeaves(frames, l.size);
  }

  /**
   * As written, the per-frame path reads img_siz = Π dim[1..7] values for
   * every frame, the whole volume, while the final reshape of a non-RGB
   * image expects d1·d2·d3 values per frame. With dim[4..7] not all 1, the
   * counts differ whenever the selection is not empty, so a selective read
   * never yields an image; an empty selection yields the empty array.
   */
  lemma SelectiveReshapeFails(dime: Dime8, filetype: int, src: Source, ls: Lists)
    requires VoxelOf(dime.datatypeCode).Some? && VoxelOf(dime.datatypeCode).value.kind != Unknown
    requires !WholeBlock(Clamped(dime.dim), ls)
    requires ReadImageSpec(dime, filetype, src, ls).Ok?
    ensures var vx := ReadImageSpec(dime, filetype, src, ls).value;
      var n := |ls.d7| * (|ls.d6| * (|ls.d5| * |ls.t|));
      |Leaves(vx.img)| == n * ImageSize(dime.datatypeCode, vx.dime.dim) &&
      (n == 0 ==> vx.img == Arr([])) &&
      (n != 0 && !IsRgb(dime.datatypeCode) ==>
        Finished(vx) == Err(ErrorObject(ElementCountMessage(|Leaves(vx.img)|, Prod(VolumeSizes(vx.dime.dim, vx.lists))))))
  {
    var v := VoxelOf(dime.datatypeCode).value;
    var l := LayoutOf(dime, filetype, v);
    VoxelTable(dime.datatypeCode);
    ImageSizeSplit(dime.datatypeCode, l.dim);
    SelectiveLeaves(l, src, ls);
    var n := |ls.d7| * (|ls.d6| * (|ls.d5| * |ls.t|));
    if n != 0 && !IsRgb(dime.datatypeCode) {
      VolumeSizesProd(l.dim, ls);
      CountsDiffer(n, (l.dim[1] * l.dim[2]) * l.dim[3], Prod(l.dim[4..8]));
    }
  }

  /** A list of distinct entries in [1, maxRange] with maxRange <= 1 has at most one entry. */
  lemma AtMostOne(xs: seq<int>, maxRange: int)
    requires NoDuplicates(xs) && InRange(xs, maxRange) && maxRange <= 1
    ensures |xs| <= 1
  {
    if |xs| >= 2 {
      FirstTwo(xs);
      assert false;
    }
  }

  lemma FirstTwo(xs: seq<int>)
    requires |xs| >= 2
    ensures xs[0] in xs && xs[1] in xs
  {
  }

  /** Lists that pass the argument checks are distinct indices in [1, dim[4]]. */
  lemma ArgsCheckedLists(filetype: int, fileprefix: string, machine: string, dim: seq<int>, ls: Lists, slice: seq<int>)
    requires |dim| == 8 && ArgsChecked(filetype, fileprefix, machine, dim, ls, slice).Ok?
    ensures forall xs :: xs in [ls.t, ls.d5, ls.d6, ls.d7] ==> NoDuplicates(xs) && InRange(xs, dim[4])
  {
    CheckArginIntegers(ls.t, dim[4]);
    CheckArginIntegers(ls.d5, dim[4]);
    CheckArginIntegers(ls.d6, dim[4]);
    CheckArginIntegers(ls.d7, dim[4]);
  }

  /**
   * After a whole-block read every list is as long as its dimension, when
   * every list given holds distinct indices in [1, maxRange] and lists are
   * given only with maxRange <= 1 and dim[4..7] all 1.
   */
  lemma DefaultedLengths(ls: Lists, dim: seq<int>, maxRange: int)
    requires Clamp8(dim) && (dim[4..8] == [1, 1, 1, 1] || AllEmpty(ls))
    requires forall xs :: xs in [ls.t, ls.d5, ls.d6, ls.d7] ==> NoDuplicates(xs) && InRange(xs, maxRange)
    requires !AllEmpty(ls) ==> maxRange <= 1
    ensures Lengths(DefaultedLists(ls, dim)) == dim[4..8]
  {
    if !AllEmpty(ls) {
      assert dim[4..8][0] == 1 && dim[4..8][1] == 1 && dim[4..8][2] == 1 && dim[4..8][3] == 1;
      assert ls.t in [ls.t, ls.d5, ls.d6, ls.d7];
      assert ls.d5 in [ls.t, ls.d5, ls.d6, ls.d7];
      assert ls.d6 in [ls.t, ls.d5, ls.d6, ls.d7];
      assert ls.d7 in [ls.t, ls.d5, ls.d6, ls.d7];
      AtMostOne(ls.t, maxRange);
      AtMostOne(ls.d5, maxRange);
      AtMostOne(ls.d6, maxRange);
      AtMostOne(ls.d7, maxRange);
    }
  }

  /**
   * On the whole-block path, with lists that pass the argument checks, the
   * final dim is the clamped header dim: an empty list defaults to all
   * dim[k] indices, and when dim[4..7] are all 1 a list that passes holds
   * at most the single index 1.
   */
  lemma WholeBlockKeepsDims(dime: Dime8, filetype: int, fileprefix: string, machine: string,
                            src: Source, ls: Lists, slice: seq<int>)
    requires ArgsChecked(filetype, fileprefix, machine, dime.dim, ls, slice).Ok?
    requires WholeBlock(Clamped(dime.dim), ls)
    requires ReadImageSpec(dime, filetype, src, ls).Ok?
    ensures FinalDime(ReadImageSpec(dime, filetype, src, ls).value).dim == Clamped(dime.dim)
  {
    var cd := Clamped(dime.dim);
    WholeBlockVoxels(dime, filetype, src, ls);
    ArgsCheckedLists(filetype, fileprefix, machine, dime.dim, ls, slice);
    if !AllEmpty(ls) {
      assert cd[4..8][0] == 1;
    }
    DefaultedLengths(ls, cd, dime.dim[4]);
    SelectedOwnDims(cd);
  }

  /** A whole-block read keeps the clamped dims and leaves the lists defaulted. */
  lemma WholeBlockVoxels(dime: Dime8, filetype: int, src: Source, ls: Lists)
    requires WholeBlock(Clamped(dime.dim), ls)
    requires ReadImageSpec(dime, filetype, src, ls).Ok?
    ensures var vx := ReadImageSpec(dime, filetype, src, ls).value;
      Clamp8(Clamped(dime.dim)) && vx.dime.dim == Clamped(dime.dim) && vx.lists == DefaultedLists(ls, Clamped(dime.dim))
  {
  }

  /** Updating clamped dims with their own dim[4..7] changes nothing. */
  lemma SelectedOwnDims(dim: seq<int>)
    requires Clamp8(dim)
    ensures SelectedDims(dim, dim[4..8]) == dim
  {
    var r := SelectedDims(dim, dim[4..8]);
    forall k | 0 <= k < 8
      ensures r[k] == dim[k]
    {
      if k < 4 {
        assert r[k] == r[..4][k];
      } else {
        assert dim[4..8][k - 4] == dim[k];
      }
    }
  }

  // ----- read_image -----

  /** An array holding `s`, for the library routines that work on arrays in place. */
  method ArrayOf(s: seq<int>) returns (a: array<int>)
    ensures fresh(a) && a[..] == s
  {
    a := new int[|s|](i requires 0 <= i < |s| => s[i]);
  }

  /**
   * The RGB arrangement: reshape to `sizes`, then permute the levels by
   * `order`. When the reshape succeeds on sizes of at least 1 and `order`
   * is a permutation, the result is the reshaped image with its levels
   * permuted.
   */
  method ArrangeRgb(img: Value, sizes: seq<nat>, order: seq<int>) returns (r: Outcome<Value>)
    ensures ReshapeSpec(img, sizes).Err? ==> r == Err(ReshapeSpec(img, sizes).error)
    ensures ValidOrder(order) && |order| >= 1 ==> RgbArranged(r, img, sizes, order)
  {
    var s := ArrayOf(sizes);
    var shaped := Reshape(img, s);
    if shaped.Err? {
      return shaped;
    }
    var o := ArrayOf(order);
    ghost var shape := Reverse(sizes);
    if ValidOrder(order) && 1 <= |order| <= |sizes| && forall k :: 0 <= k < |sizes| ==> sizes[k] >= 1 {
      ReshapedShape(img, sizes);
    }
    r := Permute(shaped.value, o, shape);
  }

  /** A reshape to sizes of at least 1 that succeeds has the reversed sizes as its shape. */
  lemma ReshapedShape(img: Value, sizes: seq<nat>)
    requires ReshapeSpec(img, sizes).Ok? && |sizes| >= 1
    requires forall k :: 0 <= k < |sizes| ==> sizes[k] >= 1
    ensures HasShape(ReshapeSpec(img, sizes).value, Reverse(sizes))
    ensures forall k :: 0 <= k < |sizes| ==> Reverse(sizes)[k] >= 1
  {
    ReshapeShape(img, sizes);
  }

  /** The reads of read_image: seek to the start, then one whole-block read or the frames of the selection. */
  method ReadVoxelsFrom(fid: File, l: Layout, src: Source, ls: Lists) returns (r: Outcome<(Value, Lists)>)
    requires Clamp8(l.dim) && OpenOn(fid, src)
    modifies fid
    ensures OpenOn(fid, src)
    ensures r == ReadVoxels(l, src, ls)
  {
    var _ := fid.Fseek(l.start, "bof");
    if WholeBlock(l.dim, ls) {
      var x := fid.Fread(l.size, l.precision, src.fmt);
      if x.Err? {
        return Err(x.error);
      }
      r := Ok((x.value, DefaultedLists(ls, l.dim)));
    } else {
      var x := ReadSelection(fid, l, src, ls.t, ls.d5, ls.d6, ls.d7);
      if x.Err? {
        return Err(x.error);
      }
      r := Ok((Arr(x.value), ls));
    }
  }

  /**
   * The arrangement after the reads: for datatype 128 a reshape to
   * [3, d1, d2, d3, ...] (or [d1, d2, 3, d3, ...] for old_RGB) and a permute;
   * for 511 the normalised values reshaped and permuted the same way; for
   * any other datatype a reshape to the volume and the list lengths.
   */
  method ArrangeImage(code: int, img: Value, dim: seq<int>, lists: Lists, oldRgb: bool,
                      glmax: real, glmin: real, normalise: (Value, real, real) -> Value)
    returns (shaped: Outcome<Value>)
    requires Clamp8(dim) && img.Arr?
    ensures !IsRgb(code) ==> shaped == ReshapeSpec(img, VolumeSizes(dim, lists))
    ensures IsRgb(code) ==>
      RgbArranged(shaped, RgbInput(code, img, glmax, glmin, normalise), RgbSizes(code, dim, lists, oldRgb), RgbOrder(code, oldRgb))
  {
    if IsRgb(code) {
      RgbOrderValid(code, oldRgb);
      shaped := ArrangeRgb(RgbInput(code, img, glmax, glmin, normalise), RgbSizes(code, dim, lists, oldRgb),
                           RgbOrder(code, oldRgb));
    } else {
      var sizes := ArrayOf(VolumeSizes(dim, lists));
      shaped := Reshape(img, sizes);
    }
  }

  /**
   * `read_image(hdr, filetype, machine, img_idx, dim5_idx, dim6_idx,
   * dim7_idx, old_RGB, slice_idx, data)`. slice_idx is never used.
   * `normalise` stands for the floating-point expression
   * (val - glmin) / (glmax - glmin) of the 511 branch.
   */
  method ReadImage(dime: Dime8, filetype: int, machine: string, ls: Lists, oldRgb: bool,
                   data: seq<Byte>, fmt: FloatFormat, normalise: (Value, real, real) -> Value)
    returns (r: Outcome<(Value, Dime8)>)
    ensures ReadImageMeets(r, dime, filetype, Source(data, machine == "ieee-le", fmt), ls, oldRgb, normalise)
  {
    var src := Source(data, machine == "ieee-le", fmt);
    var fid := new File("", machine);
    fid.Fopen(data);
    var v := VoxelOf(dime.datatypeCode);
    if v.None? {
      return Err(Thrown(UnsupportedMessage));
    }
    var l := LayoutOf(dime, filetype, v.value);
    var read := ReadVoxelsFrom(fid, l, src, ls);
    if read.Err? {
      return Err(read.error);
    }
    var (img, lists) := read.value;
    if !img.Arr? {
      return Err(TypeError);
    }
    var glmax, glmin := UpdateRange(img.items, dime.glmax, dime.glmin);
    fid.Fclose();
    var hdr: Dime8 := dime.(bitpix := v.value.bitpix, dim := l.dim, glmax := glmax, glmin := glmin);
    ghost var vx := Voxels(img, hdr, lists);
    assert ReadImageSpec(dime, filetype, src, ls) == Ok(vx);
    var shaped := ArrangeImage(dime.datatypeCode, img, l.dim, lists, oldRgb, glmax, glmin, normalise);
    ghost var rgbArranged := IsRgb(dime.datatypeCode) &&
      RgbArranged(shaped, RgbInput(dime.datatypeCode, img, glmax, glmin, normalise),
                  RgbSizes(dime.datatypeCode, l.dim, lists, oldRgb), RgbOrder(dime.datatypeCode, oldRgb));
    if shaped.Err? {
      assert rgbArranged ==> Err(shaped.error) == RgbFinished(shaped, vx);
      return Err(shaped.error);
    }
    hdr := hdr.(dim := SelectedDims(hdr.dim, Lengths(lists)));
    var unwrapped := Unwrap(shaped.value);
    if unwrapped.Err? {
      assert rgbArranged ==> Err(unwrapped.error) == RgbFinished(shaped, vx);
      return Err(unwrapped.error);
    }
    r := Ok((unwrapped.value, hdr));
    assert rgbArranged ==> r == RgbFinished(shaped, vx);
  }

  // ----- load_untouch_nii_img and load_untouch_nii -----

  const ImgUsageMessage := "Usage: [img,hdr] = load_untouch_nii_img(hdr, filetype, fileprefix, machine, data [img_idx], [dim5_idx], [dim6_idx], [dim7_idx], [old_RGB], [slice_idx]);"
  const UsageMessage := "Usage: nii = load_untouch_nii(filename, [img_idx], [dim5_idx], [dim6_idx], [dim7_idx], [old_RGB], [slice_idx])"

  /**
   * The checks of load_untouch_nii_img before read_image: a falsy argument
   * (filetype 0 among them; the header and the buffer are objects and never
   * falsy), then check_argin on the four lists and slice_idx, each against
   * the header's unclamped dim[4].
   */
  function ArgsChecked(filetype: int, fileprefix: string, machine: string, dim: seq<int>, ls: Lists, slice: seq<int>): Outcome<()>
    requires |dim| == 8
  {
    if filetype == 0 || fileprefix == "" || machine == "" then Err(Thrown(ImgUsageMessage))
    else
      var a :- CheckArgin(Indices(ls.t), dim[4]);
      var b :- CheckArgin(Indices(ls.d5), dim[4]);
      var c :- CheckArgin(Indices(ls.d6), dim[4]);
      var e :- CheckArgin(Indices(ls.d7), dim[4]);
      CheckArgin(Indices(slice), dim[4])
  }

  /** `load_untouch_nii_img(hdr, filetype, fileprefix, machine, data, ...)`. */
  method LoadUntouchNiiImg(dime: Dime8, filetype: int, fileprefix: string, machine: string, data: seq<Byte>,
                           ls: Lists, oldRgb: bool, slice: seq<int>, fmt: FloatFormat,
                           normalise: (Value, real, real) -> Value)
    returns (r: Outcome<(Value, Dime8)>)
    ensures ArgsChecked(filetype, fileprefix, machine, dime.dim, ls, slice).Err? ==>
      r == Err(ArgsChecked(filetype, fileprefix, machine, dime.dim, ls, slice).error)
    ensures ArgsChecked(filetype, fileprefix, machine, dime.dim, ls, slice).Ok? ==>
      ReadImageMeets(r, dime, filetype, Source(data, machine == "ieee-le", fmt), ls, oldRgb, normalise)
  {
    var checked := ArgsChecked(filetype, fileprefix, machine, dime.dim, ls, slice);
    if checked.Err? {
      return Err(checked.error);
    }
    r := ReadImage(dime, filetype, machine, ls, oldRgb, data, fmt, normalise);
  }

  /** The image_dimension fields of an Analyze 7.5 header that read_image looks at. */
  function AnalyzeDime(a: AnalyzeHeader.AnalyzeHeader): ImageDime
  {
    ImageDime(a.dime.datatypeCode, a.dime.bitpix, a.dime.dim, a.dime.voxOffset, a.dime.glmax as real, a.dime.glmin as real)
  }

  /** The result of load_untouch_nii; of its header only the image_dimension part is modelled. */
  datatype UntouchNii = UntouchNii(dime: Dime8, filetype: int, fileprefix: string, machine: string,
                                   ext: Value, img: Value, untouch: int)

  /** What load_untouch_nii knows before it reads the image: header, file type, prefix, byte order, extension. */
  datatype Prelude = Prelude(dime: Dime8, filetype: int, fileprefix: string, machine: string, ext: Value)

  /**
   * The headers load_untouch_nii reads: load_nii_hdr, then the Analyze
   * header for filetype 0 (with no extension), otherwise the NIfTI header
   * `untouchHdr` stands for and load_nii_ext.
   */
  function PreludeSpec(filename: string, data: seq<Byte>, fmt: FloatFormat,
                       untouchHdr: (string, seq<Byte>) -> Outcome<Dime8>): Outcome<Prelude>
  {
    if filename == "" then Err(Thrown(UsageMessage))
    else
      var h :- NiftiHeader.LoadNiiHdrSpec(filename, data, fmt);
      if h.filetype == 0 then
        var a :- AnalyzeHeader.AnalyzeHeaderAt(Some(data), h.machine == "ieee-le", fmt);
        if |a.dime.dim| != 8 then Err(RangeError)
        else Ok(Prelude(AnalyzeDime(a), 0, h.fileprefix, h.machine, Arr([])))
      else
        var dime :- untouchHdr(h.machine, data);
        var ext :- NiftiExtension.LoadNiiExtSpec(filename, data, fmt);
        Ok(Prelude(dime, h.filetype, h.fileprefix, h.machine, ext))
  }

  /** The image and header of a load_untouch_nii result. */
  function ImageOf(r: Outcome<UntouchNii>): Outcome<(Value, Dime8)>
  {
    match r
    case Err(e) => Err(e)
    case Ok(n) => Ok((n.img, n.dime))
  }

  /**
   * `load_untouch_nii(filename, data, img_idx, dim5_idx, dim6_idx,
   * dim7_idx, old_RGB, slice_idx)`. `untouchHdr` stands for
   * load_untouch_nii_hdr, which is not part of this model. Only a
   * little-endian NIfTI file can load: an Analyze file fails the usage
   * check of load_untouch_nii_img, and a big-endian one fails in
   * load_nii_ext. The extension list is always empty.
   */
  method LoadUntouchNii(filename: string, data: seq<Byte>, ls: Lists, oldRgb: bool, slice: seq<int>,
                        fmt: FloatFormat, normalise: (Value, real, real) -> Value,
                        untouchHdr: (string, seq<Byte>) -> Outcome<Dime8>)
    returns (r: Outcome<UntouchNii>)
    ensures PreludeSpec(filename, data, fmt, untouchHdr).Err? ==> r == Err(PreludeSpec(filename, data, fmt, untouchHdr).error)
    ensures PreludeSpec(filename, data, fmt, untouchHdr).Ok? ==>
      var p := PreludeSpec(filename, data, fmt, untouchHdr).value;
      var checked := ArgsChecked(p.filetype, p.fileprefix, p.machine, p.dime.dim, ls, slice);
      (checked.Err? ==> r == Err(checked.error)) &&
      (checked.Ok? ==> ReadImageMeets(ImageOf(r), p.dime, p.filetype, Source(data, p.machine == "ieee-le", fmt), ls, oldRgb, normalise))
    ensures r.Ok? ==> r.value.filetype in {1, 2} && r.value.machine == "ieee-le" && r.value.ext == Arr([]) && r.value.untouch == 1
  {
    var p := LoadUntouchPrelude(filename, data, fmt, untouchHdr);
    if p.Err? {
      return Err(p.error);
    }
    var img := LoadUntouchNiiImg(p.value.dime, p.value.filetype, p.value.fileprefix, p.value.machine, data,
                                 ls, oldRgb, slice, fmt, normalise);
    if img.Err? {
      return Err(img.error);
    }
    r := Ok(UntouchNii(img.value.1, p.value.filetype, p.value.fileprefix, p.value.machine, p.value.ext, img.value.0, 1));
  }

  /**
   * The header reads of load_untouch_nii. The extension list is always
   * empty, and a NIfTI file that gets this far is little-endian.
   */
  method LoadUntouchPrelude(filename: string, data: seq<Byte>, fmt: FloatFormat,
                            untouchHdr: (string, seq<Byte>) -> Outcome<Dime8>)
    returns (r: Outcome<Prelude>)
    ensures r == PreludeSpec(filename, data, fmt, untouchHdr)
    ensures r.Ok? ==> r.value.ext == Arr([]) && r.value.filetype in {0, 1, 2}
    ensures r.Ok? && r.value.filetype != 0 ==> r.value.machine == "ieee-le"
  {
    if filename == "" {
      return Err(Thrown(UsageMessage));
    }
    var h := NiftiHeader.LoadNiiHdr(filename, data, fmt);
    if h.Err? {
      return Err(h.error);
    }
    NiftiHeader.LoadedByteOrder(filename, data, fmt);
    if h.value.filetype == 0 {
      var a := AnalyzeHeader.LoadUntouch0NiiHdr(h.value.machine, data, fmt);
      if a.Err? {
        return Err(a.error);
      }
      if |a.value.dime.dim| != 8 {
        assert false;
        return Err(RangeError);
      }
      r := Ok(Prelude(AnalyzeDime(a.value), 0, h.value.fileprefix, h.value.machine, Arr([])));
    } else {
      var u := untouchHdr(h.value.machine, data);
      if u.Err? {
        return Err(u.error);
      }
      var e := NiftiExtension.LoadNiiExt(filename, data, fmt);
      if e.Err? {
        return Err(e.error);
      }
      NiftiExtension.ExtensionAlwaysEmpty(filename, data, fmt);
      if h.value.machine != "ieee-le" {
        NiftiExtension.BigEndianFails(filename, data, fmt);
      }
      r := Ok(Prelude(u.value, h.value.filetype, h.value.fileprefix, h.value.machine, e.value));
    }
  }
}
