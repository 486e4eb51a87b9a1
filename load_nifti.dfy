// The NIfTI loader, load_nifti.js: load_nii_img and its read_image. Unlike
// the untouch loader it accepts the complex datatypes 32 and 1792, fills in
// empty selection lists before the per-frame loop, reads one volume
// d1·d2·d3 per frame, and takes glmax and glmin over every value read.
// load_nii itself, which ends in xform_nii, is in load_nii.dfy.

module NiftiLoader {
  import opened JsValues
  import opened Bytes
  import opened FileCursor
  import opened Matlab
  import opened MatlabLayout
  import opened NiftiImage
  import opened UntouchLoader

  // ----- the datatype table -----

  /**
   * The switch on hdr.dime.datatype: the untouch table, plus complex64
   * (two float32 per voxel) and complex128 (two float64 per voxel).
   */
  function NiiVoxelOf(code: int): Option<Voxel>
  {
    if code == 32 then Some(Voxel(64, Float32))
    else if code == 1792 then Some(Voxel(128, Float64))
    else VoxelOf(code)
  }

  /** The complex datatypes, stored as a real and an imaginary value per voxel. */
  predicate IsComplex(code: int)
  {
    code == 32 || code == 1792
  }

  /** The values stored per voxel: 2 for complex, 3 for RGB, else 1. */
  function Planes(code: int): nat
  {
    if IsComplex(code) then 2 else if IsRgb(code) then 3 else 1
  }

  /**
   * Fourteen datatypes are accepted; the two 64-bit integer types read as
   * no FILE type; every other accepted type stores bitpix = the width of
   * one value times the values per voxel.
   */
  lemma NiiVoxelTable(code: int)
    ensures NiiVoxelOf(code).Some? <==>
      code in {2, 4, 8, 16, 32, 64, 128, 256, 511, 512, 768, 1024, 1280, 1792}
    ensures NiiVoxelOf(code).Some? ==> (NiiVoxelOf(code).value.kind == Unknown <==> code == 1024 || code == 1280)
    ensures NiiVoxelOf(code).Some? && NiiVoxelOf(code).value.kind != Unknown ==>
      FileCursor.IsNumeric(NiiVoxelOf(code).value.kind) &&
      NiiVoxelOf(code).value.bitpix == 8 * Width(NiiVoxelOf(code).value.kind) * Planes(code)
  {
    VoxelTable(code);
  }

  // ----- what read_image reads -----

  /**
   * img_siz: the whole block dim[1..7] for a single read, one volume
   * d1·d2·d3 per frame otherwise; times the values per voxel.
   */
  function NiiSize(code: int, dim: seq<int>, whole: bool): int
    requires |dim| == 8
  {
    (if whole then Prod(dim[1..8]) else (dim[1] * dim[2]) * dim[3]) * Planes(code)
  }

  /** The layout read_image settles on: the clamped dims, the start and img_siz. */
  function NiiLayout(dime: Dime8, filetype: int, v: Voxel, ls: Lists): (l: Layout)
    ensures Clamp8(l.dim) && l.dim == Clamped(dime.dim) && l.bitpix == v.bitpix
    ensures KindOf(l.precision) == v.kind
    ensures l.size == NiiSize(dime.datatypeCode, l.dim, WholeBlock(l.dim, ls))
  {
    var dim := Clamped(dime.dim);
    Layout(v.bitpix, TagOf(v.kind), dim, StartOf(filetype, dime.voxOffset),
           NiiSize(dime.datatypeCode, dim, WholeBlock(dim, ls)))
  }

  /**
   * The lists the reads run on: as given for the whole-block read, which
   * fills them in afterwards; filled in before the loop for a per-frame read.
   */
  function ReadLists(dim: seq<int>, ls: Lists): Lists
    requires Clamp8(dim)
  {
    if WholeBlock(dim, ls) then ls else DefaultedLists(ls, dim)
  }

  /** Filled-in lists are never empty, so they never select the whole-block read. */
  lemma DefaultedNonEmpty(ls: Lists, dim: seq<int>)
    requires Clamp8(dim)
    ensures var d := DefaultedLists(ls, dim);
      |d.t| >= 1 && |d.d5| >= 1 && |d.d6| >= 1 && |d.d7| >= 1 && !AllEmpty(d)
  {
  }

  /**
   * read_image up to `fid.fclose()`: the table, the clamp, the reads, then
   * for a complex datatype `img.flat(Infinity)` and the reshape into real
   * and imaginary rows, whose result goes to the undeclared `img_tmp` (a
   * ReferenceError); otherwise glmax and glmin over every value of
   * `structuredClone(img).flat(Infinity)`. Both flats throw a TypeError
   * unless img is an array.
   */
  function ReadNiiSpec(dime: Dime8, filetype: int, src: Source, ls: Lists): Outcome<Voxels>
  {
    match NiiVoxelOf(dime.datatypeCode)
    case None => Err(Thrown(UnsupportedMessage))
    case Some(v) =>
      var l := NiiLayout(dime, filetype, v, ls);
      var read :- ReadVoxels(l, src, ReadLists(l.dim, ls));
      if !read.0.Arr? then Err(TypeError)
      else if IsComplex(dime.datatypeCode) then
        var flat := Leaves(read.0);
        var halves :- ReshapeSpec(Arr(flat), [2, |flat| / 2]);
        Err(ReferenceError)
      else
        var (hi, lo) := Extremes(Leaves(read.0), dime.glmax, dime.glmin);
        Ok(Voxels(read.0, dime.(bitpix := v.bitpix, dim := l.dim, glmax := hi, glmin := lo), read.1))
  }

  /** Every item rescaled by `normalise` with the final glmax and glmin. */
  function Normalised(items: seq<Value>, glmax: real, glmin: real, normalise: (Value, real, real) -> Value): seq<Value>
  {
    seq(|items|, i requires 0 <= i < |items| => normalise(items[i], glmax, glmin))
  }

  /**
   * The arrangement after the reads. Datatype 128 is reshaped to
   * [d1, d2, 3, d3, ...] (old_RGB) or [3, d1, d2, d3, ...], 511 is
   * normalised item by item and reshaped to [3, d1, d2, d3, ...]; both are
   * then passed to `permute` with a single number as the order, and
   * `new Set(n)` in unique throws a TypeError. Every other datatype is
   * reshaped to the volume and the list lengths.
   */
  function ArrangedNii(vx: Voxels, oldRgb: bool, normalise: (Value, real, real) -> Value): Outcome<Value>
    requires vx.img.Arr?
  {
    var dim := vx.dime.dim;
    var lens := Lengths(vx.lists);
    if vx.dime.datatypeCode == 128 then
      var shaped :- ReshapeSpec(vx.img, if oldRgb then [dim[1], dim[2], 3, dim[3]] + lens
                                        else [3, dim[1], dim[2], dim[3]] + lens);
      Err(TypeError)
    else if vx.dime.datatypeCode == 511 then
      var shaped :- ReshapeSpec(Arr(Normalised(vx.img.items, vx.dime.glmax, vx.dime.glmin, normalise)),
                                [3, dim[1], dim[2], dim[3]] + lens);
      Err(TypeError)
    else
      ReshapeSpec(vx.img, VolumeSizes(dim, vx.lists))
  }

  /** The whole of read_image: the reads, the arrangement, the dim update and the unwrapping. */
  function ReadNii(dime: Dime8, filetype: int, src: Source, ls: Lists, oldRgb: bool,
                   normalise: (Value, real, real) -> Value): Outcome<(Value, Dime8)>
  {
    var vx :- ReadNiiSpec(dime, filetype, src, ls);
    var shaped :- ArrangedNii(vx, oldRgb, normalise);
    var img :- Unwrapped(shaped);
    Ok((img, FinalDime(vx)))
  }

  // ----- what the reads deliver -----

  /** The values of a numeric run that succeeds are numbers, so the run is its own list of leaves. */
  lemma RunLeaves(content: Option<seq<Byte>>, offset: real, littleEndian: bool, n: nat, k: Kind, fmt: FloatFormat)
    requires FileCursor.IsNumeric(k) && ReadRun(content, offset, littleEndian, n, k, fmt).0.Ok?
    ensures LeavesSeq(ReadRun(content, offset, littleEndian, n, k, fmt).0.value) ==
            ReadRun(content, offset, littleEndian, n, k, fmt).0.value
    ensures |ReadRun(content, offset, littleEndian, n, k, fmt).0.value| == n
  {
    RunNumbers(content, offset, littleEndian, n, k, fmt);
    LeavesSeqOfLeaves(ReadRun(content, offset, littleEndian, n, k, fmt).0.value);
  }

  /** A numeric run that succeeds holds n values, none of them an array. */
  lemma {:induction false} RunNumbers(content: Option<seq<Byte>>, offset: real, littleEndian: bool, n: nat, k: Kind,
                                      fmt: FloatFormat)
    requires FileCursor.IsNumeric(k) && ReadRun(content, offset, littleEndian, n, k, fmt).0.Ok?
    ensures var items := ReadRun(content, offset, littleEndian, n, k, fmt).0.value;
      |items| == n && forall i :: 0 <= i < |items| ==> !items[i].Arr?
    decreases n
  {
    if n > 0 {
      GetAtIsNumber(content.value, Truncate(offset), littleEndian, k, fmt);
      RunNumbers(content, offset + Width(k) as real, littleEndian, n - 1, k, fmt);
    }
  }

  /** A numeric fread that succeeds yields Count(number) values, an array exactly when number is not 1. */
  lemma NumericLeaves(content: Option<seq<Byte>>, offset: real, littleEndian: bool, number: int, k: Kind, fmt: FloatFormat)
    requires FileCursor.IsNumeric(k) && ReadSpec(content, offset, littleEndian, number, k, fmt).0.Ok?
    ensures var v := ReadSpec(content, offset, littleEndian, number, k, fmt).0.value;
      |Leaves(v)| == Count(number) && (v.Arr? <==> number != 1)
  {
    NumericRead(content, offset, littleEndian, number, k, fmt);
    if number != 1 {
      var n := Count(number);
      assert n == if number < 0 then 0 else number;
      var run := ReadRun(content, offset, littleEndian, n, k, fmt).0;
      assert ReadSpec(content, offset, littleEndian, number, k, fmt).0 == Ok(Arr(run.value));
      RunLeaves(content, offset, littleEndian, n, k, fmt);
    }
  }

  /** Frames of m leaves each have |frames|·m leaves together. */
  lemma {:induction false} FramesLeaves(frames: seq<Value>, m: nat)
    requires forall k :: 0 <= k < |frames| ==> |Leaves(frames[k])| == m
    ensures |LeavesSeq(frames)| == |frames| * m
  {
    if frames != [] {
      FramesLeaves(frames[1..], m);
      assert |frames| * m == m + (|frames| - 1) * m;
    }
  }

  /** The volume d1·d2·d3 of clamped dims is at least 1. */
  lemma VolumeAtLeastOne(dim: seq<int>)
    requires Clamp8(dim)
    ensures (dim[1] * dim[2]) * dim[3] >= 1
  {
    MulLeMono(1, dim[1], dim[2]);
    MulLeMono(1, dim[1] * dim[2], dim[3]);
  }

  /** img_siz is at least 1 on either path. */
  lemma NiiSizePositive(code: int, dim: seq<int>, whole: bool)
    requires Clamp8(dim)
    ensures NiiSize(code, dim, whole) >= 1
  {
    ProdBounds(dim[1..8], -1);
    VolumeAtLeastOne(dim);
    MulLeMono(1, Planes(code), Prod(dim[1..8]));
    MulLeMono(1, Planes(code), (dim[1] * dim[2]) * dim[3]);
  }

  /** A frame that reads holds `size` values. */
  lemma FrameLeaves(l: Layout, src: Source, s: Subscript)
    requires |l.dim| == 8 && FileCursor.IsNumeric(KindOf(l.precision)) && l.size >= 1
    requires FrameAt(l, src, s).Ok?
    ensures |Leaves(FrameAt(l, src, s).value)| == l.size
  {
    var idx := Sub2indSpec(l.dim[1..], [1, 1, 1, s.t, s.i5, s.i6, s.i7]).value;
    NumericLeaves(Some(src.data), FramePos(l, idx), src.littleEndian, l.size, KindOf(l.precision), src.fmt);
  }

  /** The per-frame path yields one frame of `size` values for every subscript of the selection. */
  lemma SelectionLeaves(l: Layout, src: Source, d: Lists)
    requires |l.dim| == 8 && FileCursor.IsNumeric(KindOf(l.precision)) && l.size >= 1
    requires ReadFrames(l, src, Selection(d.t, d.d5, d.d6, d.d7)).Ok?
    ensures |LeavesSeq(ReadFrames(l, src, Selection(d.t, d.d5, d.d6, d.d7)).value)| ==
            (|d.d7| * (|d.d6| * (|d.d5| * |d.t|))) * l.size
  {
    var sel := Selection(d.t, d.d5, d.d6, d.d7);
    var frames := ReadFrames(l, src, sel).value;
    ReadFramesFacts(l, src, sel);
    SelectionCount(d.t, d.d5, d.d6, d.d7);
    forall j | 0 <= j < |frames| ensures |Leaves(frames[j])| == l.size {
      FrameLeaves(l, src, sel[j]);
    }
    FramesLeaves(frames, l.size);
  }

  /**
   * The values read: img_siz of them on the whole-block path; on the
   * per-frame path one volume of them for every frame of the filled-in
   * selection. Either way the lists come back filled in.
   */
  lemma NiiReadLeaves(l: Layout, src: Source, ls: Lists, code: int)
    requires Clamp8(l.dim) && FileCursor.IsNumeric(KindOf(l.precision))
    requires l.size == NiiSize(code, l.dim, WholeBlock(l.dim, ls))
    requires ReadVoxels(l, src, ReadLists(l.dim, ls)).Ok?
    ensures var img := ReadVoxels(l, src, ReadLists(l.dim, ls)).value.0;
      var d := DefaultedLists(ls, l.dim);
      ReadVoxels(l, src, ReadLists(l.dim, ls)).value.1 == d &&
      (WholeBlock(l.dim, ls) ==> |Leaves(img)| == NiiSize(code, l.dim, true)) &&
      (!WholeBlock(l.dim, ls) ==>
        img.Arr? && |Leaves(img)| == (|d.d7| * (|d.d6| * (|d.d5| * |d.t|))) * NiiSize(code, l.dim, false))
  {
    NiiSizePositive(code, l.dim, WholeBlock(l.dim, ls));
    if WholeBlock(l.dim, ls) {
      NumericLeaves(Some(src.data), l.start, src.littleEndian, l.size, KindOf(l.precision), src.fmt);
    } else {
      var d := DefaultedLists(ls, l.dim);
      DefaultedNonEmpty(ls, l.dim);
      assert !WholeBlock(l.dim, d);
      SelectionLeaves(l, src, d);
    }
  }

  // ----- which images load -----

  lemma Prod2(a: int, b: int)
    ensures Prod([a, b]) == a * b
  {
    assert [a][..0] == [];
    assert Prod([a]) == a;
    assert [a, b][..1] == [a];
  }

  /** A list of non-array values is its own list of leaves. */
  lemma FlatLeaves(v: Value)
    ensures Leaves(Arr(Leaves(v))) == Leaves(v)
  {
    LeavesAreLeaves(v);
    var flat := Leaves(v);
    assert forall i :: 0 <= i < |flat| ==> flat[i] in flat;
    LeavesSeqOfLeaves(flat);
  }

  lemma EvenCount(n: int, v: int)
    ensures (n * (v * 2)) % 2 == 0
  {
    assert n * (v * 2) == (n * v) * 2;
  }

  /**
   * A complex image never loads: once its values are read as an array,
   * splitting them into real and imaginary rows succeeds (there are two
   * values per voxel) and the assignment to the undeclared img_tmp throws
   * a ReferenceError.
   */
  lemma ComplexFails(dime: Dime8, filetype: int, src: Source, ls: Lists)
    requires IsComplex(dime.datatypeCode)
    ensures ReadNiiSpec(dime, filetype, src, ls).Err?
    ensures var l := NiiLayout(dime, filetype, NiiVoxelOf(dime.datatypeCode).value, ls);
      var read := ReadVoxels(l, src, ReadLists(l.dim, ls));
      read.Ok? && read.value.0.Arr? ==> ReadNiiSpec(dime, filetype, src, ls) == Err(ReferenceError)
  {
    var code := dime.datatypeCode;
    var l := NiiLayout(dime, filetype, NiiVoxelOf(code).value, ls);
    var read := ReadVoxels(l, src, ReadLists(l.dim, ls));
    if read.Ok? && read.value.0.Arr? {
      NiiVoxelTable(code);
      ComplexEven(l, src, ls, code);
      ComplexSplits(read.value.0);
    }
  }

  /** A complex read delivers two values per voxel, so an even number of them. */
  lemma ComplexEven(l: Layout, src: Source, ls: Lists, code: int)
    requires Clamp8(l.dim) && FileCursor.IsNumeric(KindOf(l.precision)) && IsComplex(code)
    requires l.size == NiiSize(code, l.dim, WholeBlock(l.dim, ls))
    requires ReadVoxels(l, src, ReadLists(l.dim, ls)).Ok?
    ensures |Leaves(ReadVoxels(l, src, ReadLists(l.dim, ls)).value.0)| % 2 == 0
  {
    NiiReadLeaves(l, src, ls, code);
    var d := DefaultedLists(ls, l.dim);
    if !WholeBlock(l.dim, ls) {
      EvenCount(|d.d7| * (|d.d6| * (|d.d5| * |d.t|)), (l.dim[1] * l.dim[2]) * l.dim[3]);
    }
  }

  /** An even number of values reshapes into a real and an imaginary row. */
  lemma ComplexSplits(img: Value)
    requires |Leaves(img)| % 2 == 0
    ensures ReshapeSpec(Arr(Leaves(img)), [2, |Leaves(img)| / 2]).Ok?
  {
    var flat := Leaves(img);
    FlatLeaves(img);
    Prod2(2, |flat| / 2);
  }

  /** On the per-frame path of a 64-bit integer type every frame that reads is undefined. */
  lemma UnknownFrames(l: Layout, src: Source, d: Lists)
    requires |l.dim| == 8 && KindOf(l.precision) == Unknown
    requires ReadFrames(l, src, Selection(d.t, d.d5, d.d6, d.d7)).Ok?
    ensures |LeavesSeq(ReadFrames(l, src, Selection(d.t, d.d5, d.d6, d.d7)).value)| ==
            |d.d7| * (|d.d6| * (|d.d5| * |d.t|))
  {
    var sel := Selection(d.t, d.d5, d.d6, d.d7);
    var frames := ReadFrames(l, src, sel).value;
    ReadFramesFacts(l, src, sel);
    SelectionCount(d.t, d.d5, d.d6, d.d7);
    forall j | 0 <= j < |frames| ensures |Leaves(frames[j])| == 1 {
      var s := sel[j];
      var idx := Sub2indSpec(l.dim[1..], [1, 1, 1, s.t, s.i5, s.i6, s.i7]).value;
      UnknownRead(Some(src.data), FramePos(l, idx), src.littleEndian, l.size, l.precision, src.fmt);
    }
    FramesLeaves(frames, 1);
  }

  /**
   * A per-frame read of a 64-bit integer type over non-empty lists fails
   * on its first frame when the volume is one voxel thin, and otherwise
   * yields fewer values than the volume times the frames.
   */
  lemma Int64SelectiveShort(l: Layout, src: Source, d: Lists)
    requires Clamp8(l.dim) && KindOf(l.precision) == Unknown
    requires |d.t| >= 1 && |d.d5| >= 1 && |d.d6| >= 1 && |d.d7| >= 1
    ensures var frames := ReadFrames(l, src, Selection(d.t, d.d5, d.d6, d.d7));
      frames.Err? || |LeavesSeq(frames.value)| != Prod(VolumeSizes(l.dim, d))
  {
    var sel := Selection(d.t, d.d5, d.d6, d.d7);
    var n := |d.d7| * (|d.d6| * (|d.d5| * |d.t|));
    SelectionCount(d.t, d.d5, d.d6, d.d7);
    MulLeMono(1, |d.t|, |d.d5|);
    MulLeMono(1, |d.d5| * |d.t|, |d.d6|);
    MulLeMono(1, |d.d6| * (|d.d5| * |d.t|), |d.d7|);
    assert |sel| == n >= 1;
    ReadFramesFacts(l, src, sel);
    if l.dim[1] <= 1 || l.dim[2] <= 1 || l.dim[3] <= 1 {
      ThinSliceRejected(l, src, sel[0]);
    } else if ReadFrames(l, src, sel).Ok? {
      UnknownFrames(l, src, d);
      VolumeSizesProd(l.dim, d);
      FramesFewerThanVolume(l.dim, n);
    }
  }

  /** One value per frame is fewer than a volume of at least 2×2×2 voxels per frame. */
  lemma FramesFewerThanVolume(dim: seq<int>, n: int)
    requires |dim| == 8 && dim[1] >= 2 && dim[2] >= 2 && dim[3] >= 2 && n >= 1
    ensures n != ((dim[1] * dim[2]) * dim[3]) * n
  {
    var v := (dim[1] * dim[2]) * dim[3];
    MulLeMono(2, dim[1], dim[2]);
    MulLeMono(2, 2 * dim[2], dim[3]);
    MulLeMono(2, v, n);
    MulLeMono(1, n, 2);
  }

  /**
   * An int64 or uint64 image never loads: the whole block reads as
   * undefined, which has no `flat`; a per-frame read either fails on its
   * first frame (a volume one voxel thin) or yields one undefined per
   * frame, fewer values than the final reshape needs.
   */
  lemma Int64NeverLoads(dime: Dime8, filetype: int, src: Source, ls: Lists, oldRgb: bool,
                        normalise: (Value, real, real) -> Value)
    requires dime.datatypeCode == 1024 || dime.datatypeCode == 1280
    ensures ReadNii(dime, filetype, src, ls, oldRgb, normalise).Err?
  {
    var l := NiiLayout(dime, filetype, NiiVoxelOf(dime.datatypeCode).value, ls);
    if WholeBlock(l.dim, ls) {
      Int64WholeFails(dime, filetype, src, ls);
    } else {
      Int64FramesFail(dime, filetype, src, ls, oldRgb, normalise);
    }
  }

  lemma Int64WholeFails(dime: Dime8, filetype: int, src: Source, ls: Lists)
    requires dime.datatypeCode == 1024 || dime.datatypeCode == 1280
    requires var l := NiiLayout(dime, filetype, NiiVoxelOf(dime.datatypeCode).value, ls); WholeBlock(l.dim, ls)
    ensures ReadNiiSpec(dime, filetype, src, ls).Err?
  {
    var l := NiiLayout(dime, filetype, NiiVoxelOf(dime.datatypeCode).value, ls);
    UnknownRead(Some(src.data), l.start, src.littleEndian, l.size, l.precision, src.fmt);
  }

  lemma Int64FramesFail(dime: Dime8, filetype: int, src: Source, ls: Lists, oldRgb: bool,
                        normalise: (Value, real, real) -> Value)
    requires dime.datatypeCode == 1024 || dime.datatypeCode == 1280
    requires var l := NiiLayout(dime, filetype, NiiVoxelOf(dime.datatypeCode).value, ls); !WholeBlock(l.dim, ls)
    ensures ReadNii(dime, filetype, src, ls, oldRgb, normalise).Err?
  {
    var spec := ReadNiiSpec(dime, filetype, src, ls);
    if spec.Ok? {
      var l := NiiLayout(dime, filetype, NiiVoxelOf(dime.datatypeCode).value, ls);
      NiiVoxelTable(dime.datatypeCode);
      NiiSpecRead(dime, filetype, src, ls);
      Int64ReadShort(l, src, ls);
      assert ArrangedNii(spec.value, oldRgb, normalise).Err?;
    }
  }

  /** What a per-frame read of a 64-bit integer type delivers is an array of too few values. */
  lemma Int64ReadShort(l: Layout, src: Source, ls: Lists)
    requires Clamp8(l.dim) && KindOf(l.precision) == Unknown && !WholeBlock(l.dim, ls)
    requires ReadVoxels(l, src, ReadLists(l.dim, ls)).Ok?
    ensures var read := ReadVoxels(l, src, ReadLists(l.dim, ls)).value;
      read.0.Arr? && |Leaves(read.0)| != Prod(VolumeSizes(l.dim, read.1))
  {
    var d := DefaultedLists(ls, l.dim);
    DefaultedNonEmpty(ls, l.dim);
    FramesRead(l, src, ls);
    Int64SelectiveShort(l, src, d);
  }

  /** A successful read_image of a non-complex type keeps what the reads delivered and the clamped dims. */
  lemma NiiSpecRead(dime: Dime8, filetype: int, src: Source, ls: Lists)
    requires ReadNiiSpec(dime, filetype, src, ls).Ok?
    ensures NiiVoxelOf(dime.datatypeCode).Some? && !IsComplex(dime.datatypeCode)
    ensures var l := NiiLayout(dime, filetype, NiiVoxelOf(dime.datatypeCode).value, ls);
      var read := ReadVoxels(l, src, ReadLists(l.dim, ls));
      var vx := ReadNiiSpec(dime, filetype, src, ls).value;
      read.Ok? && vx.img == read.value.0 && vx.lists == read.value.1 &&
      vx.dime.dim == l.dim && vx.dime.datatypeCode == dime.datatypeCode
  {
  }

  /** The per-frame reads deliver the frames of the filled-in selection and the filled-in lists. */
  lemma FramesRead(l: Layout, src: Source, ls: Lists)
    requires Clamp8(l.dim) && !WholeBlock(l.dim, ls)
    requires ReadVoxels(l, src, ReadLists(l.dim, ls)).Ok?
    ensures var d := DefaultedLists(ls, l.dim);
      var frames := ReadFrames(l, src, Selection(d.t, d.d5, d.d6, d.d7));
      frames.Ok? && ReadVoxels(l, src, ReadLists(l.dim, ls)).value == (Arr(frames.value), d)
  {
    var d := DefaultedLists(ls, l.dim);
    DefaultedNonEmpty(ls, l.dim);
    assert ReadLists(l.dim, ls) == d && !WholeBlock(l.dim, d);
  }

  /** The reshape sizes multiply to the values read when the lists keep the dims they fill in. */
  lemma WholeBlockCount(dim: seq<int>, d: Lists)
    requires |dim| == 8 && Lengths(d) == dim[4..8]
    ensures Prod(VolumeSizes(dim, d)) == Prod(dim[1..8])
  {
    VolumeSizesProd(dim, d);
    assert dim[1..8] == [dim[1], dim[2], dim[3]] + [dim[4], dim[5], dim[6], dim[7]];
    ProdAppend([dim[1], dim[2], dim[3]], [dim[4], dim[5], dim[6], dim[7]]);
    Prod3(dim[1], dim[2], dim[3]);
    Prod4(dim[4], dim[5], dim[6], dim[7]);
    assert |d.t| == dim[4] && |d.d5| == dim[5] && |d.d6| == dim[6] && |d.d7| == dim[7];
    assert dim[7] * (dim[6] * (dim[5] * dim[4])) == ((dim[4] * dim[5]) * dim[6]) * dim[7];
  }

  /** With every list non-empty, the final dim[1..7] are the reshape sizes. */
  lemma FinalDims(vx: Voxels)
    requires |vx.lists.t| >= 1 && |vx.lists.d5| >= 1 && |vx.lists.d6| >= 1 && |vx.lists.d7| >= 1
    ensures FinalDime(vx).dim[1..8] == VolumeSizes(vx.dime.dim, vx.lists)
  {
    var r := FinalDime(vx).dim;
    assert r[1] == vx.dime.dim[1] && r[2] == vx.dime.dim[2] && r[3] == vx.dime.dim[3];
    assert r[4 + 0] == |vx.lists.t| && r[4 + 1] == |vx.lists.d5| && r[4 + 2] == |vx.lists.d6| && r[4 + 3] == |vx.lists.d7|;
  }

  /**
   * For a type of one value per voxel, the values read are as many as the
   * sizes of the final reshape ask for, when the lists hold distinct
   * entries of [1, maxRange] and are given with the whole-block read only
   * when maxRange <= 1.
   */
  lemma ReadCountMatches(l: Layout, src: Source, ls: Lists, code: int, maxRange: int)
    requires Clamp8(l.dim) && FileCursor.IsNumeric(KindOf(l.precision)) && Planes(code) == 1
    requires l.size == NiiSize(code, l.dim, WholeBlock(l.dim, ls))
    requires forall xs :: xs in [ls.t, ls.d5, ls.d6, ls.d7] ==> NoDuplicates(xs) && InRange(xs, maxRange)
    requires WholeBlock(l.dim, ls) && !AllEmpty(ls) ==> maxRange <= 1
    requires ReadVoxels(l, src, ReadLists(l.dim, ls)).Ok?
    ensures var read := ReadVoxels(l, src, ReadLists(l.dim, ls)).value;
      |Leaves(read.0)| == Prod(VolumeSizes(l.dim, read.1))
  {
    if WholeBlock(l.dim, ls) {
      ReadCountWhole(l, src, ls, code, maxRange);
    } else {
      ReadCountFrames(l, src, ls, code);
    }
  }

  lemma ReadCountWhole(l: Layout, src: Source, ls: Lists, code: int, maxRange: int)
    requires Clamp8(l.dim) && FileCursor.IsNumeric(KindOf(l.precision)) && Planes(code) == 1
    requires WholeBlock(l.dim, ls) && l.size == NiiSize(code, l.dim, true)
    requires forall xs :: xs in [ls.t, ls.d5, ls.d6, ls.d7] ==> NoDuplicates(xs) && InRange(xs, maxRange)
    requires !AllEmpty(ls) ==> maxRange <= 1
    requires ReadVoxels(l, src, ls).Ok?
    ensures var read := ReadVoxels(l, src, ls).value;
      |Leaves(read.0)| == Prod(VolumeSizes(l.dim, read.1))
  {
    var d := DefaultedLists(ls, l.dim);
    NiiReadLeaves(l, src, ls, code);
    DefaultedLengths(ls, l.dim, maxRange);
    WholeBlockCount(l.dim, d);
  }

  lemma ReadCountFrames(l: Layout, src: Source, ls: Lists, code: int)
    requires Clamp8(l.dim) && FileCursor.IsNumeric(KindOf(l.precision)) && Planes(code) == 1
    requires !WholeBlock(l.dim, ls) && l.size == NiiSize(code, l.dim, false)
    requires ReadVoxels(l, src, DefaultedLists(ls, l.dim)).Ok?
    ensures var read := ReadVoxels(l, src, DefaultedLists(ls, l.dim)).value;
      |Leaves(read.0)| == Prod(VolumeSizes(l.dim, read.1))
  {
    var d := DefaultedLists(ls, l.dim);
    NiiReadLeaves(l, src, ls, code);
    VolumeSizesProd(l.dim, d);
  }

  /**
   * A non-RGB image with as many values as the volume and the non-empty
   * lists ask for reshapes to that shape, and its final dim[1..7] are
   * those sizes.
   */
  lemma VoxelsShape(vx: Voxels, oldRgb: bool, normalise: (Value, real, real) -> Value)
    requires vx.img.Arr? && !IsRgb(vx.dime.datatypeCode) && Clamp8(vx.dime.dim)
    requires |vx.lists.t| >= 1 && |vx.lists.d5| >= 1 && |vx.lists.d6| >= 1 && |vx.lists.d7| >= 1
    requires |Leaves(vx.img)| == Prod(VolumeSizes(vx.dime.dim, vx.lists))
    ensures var sizes := VolumeSizes(vx.dime.dim, vx.lists);
      (forall k :: 0 <= k < |sizes| ==> sizes[k] >= 1) &&
      ArrangedNii(vx, oldRgb, normalise).Ok? &&
      HasShape(ArrangedNii(vx, oldRgb, normalise).value, Reverse<nat>(sizes)) &&
      FinalDime(vx).dim[1..8] == sizes
  {
    ReshapeShape(vx.img, VolumeSizes(vx.dime.dim, vx.lists));
    FinalDims(vx);
  }

  /**
   * For a plain numeric datatype whose values read, with lists that pass
   * the argument checks, the final reshape succeeds: the image has the
   * shape of the volume and the list lengths, outermost level last, and
   * the returned dim[1..7] are exactly those sizes, each at least 1.
   */
  lemma NiiShapeAgrees(dime: Dime8, filetype: int, fileprefix: string, machine: string, src: Source, ls: Lists,
                       oldRgb: bool, normalise: (Value, real, real) -> Value)
    requires NiiVoxelOf(dime.datatypeCode).Some? && NiiVoxelOf(dime.datatypeCode).value.kind != Unknown
    requires !IsComplex(dime.datatypeCode) && !IsRgb(dime.datatypeCode)
    requires ArgsChecked(filetype, fileprefix, machine, dime.dim, ls, []).Ok?
    requires ReadNiiSpec(dime, filetype, src, ls).Ok?
    ensures var vx := ReadNiiSpec(dime, filetype, src, ls).value;
      var sizes := VolumeSizes(vx.dime.dim, vx.lists);
      (forall k :: 0 <= k < |sizes| ==> sizes[k] >= 1) &&
      ArrangedNii(vx, oldRgb, normalise).Ok? &&
      HasShape(ArrangedNii(vx, oldRgb, normalise).value, Reverse<nat>(sizes)) &&
      FinalDime(vx).dim[1..8] == sizes
  {
    var code := dime.datatypeCode;
    var v := NiiVoxelOf(code).value;
    NiiVoxelTable(code);
    var l := NiiLayout(dime, filetype, v, ls);
    var read := ReadVoxels(l, src, ReadLists(l.dim, ls)).value;
    var (hi, lo) := Extremes(Leaves(read.0), dime.glmax, dime.glmin);
    var vx := Voxels(read.0, dime.(bitpix := v.bitpix, dim := l.dim, glmax := hi, glmin := lo), read.1);
    assert ReadNiiSpec(dime, filetype, src, ls) == Ok(vx);
    NiiReadLeaves(l, src, ls, code);
    DefaultedNonEmpty(ls, l.dim);
    ArgsCheckedLists(filetype, fileprefix, machine, dime.dim, ls, []);
    if WholeBlock(l.dim, ls) && !AllEmpty(ls) {
      assert l.dim[4..8][0] == 1;
    }
    ReadCountMatches(l, src, ls, code, dime.dim[4]);
    VoxelsShape(vx, oldRgb, normalise);
  }

  /**
   * An image of a single voxel (dim[1..7] all at most 1) of a plain
   * numeric type never loads: the whole block is one fread of one value,
   * which returns a number rather than an array, and the number has no
   * `flat`.
   */
  lemma OneVoxelRejected(dime: Dime8, filetype: int, src: Source, ls: Lists)
    requires NiiVoxelOf(dime.datatypeCode).Some? && NiiVoxelOf(dime.datatypeCode).value.kind != Unknown
    requires !IsComplex(dime.datatypeCode) && !IsRgb(dime.datatypeCode)
    requires forall k :: 1 <= k < 8 ==> dime.dim[k] <= 1
    ensures ReadNiiSpec(dime, filetype, src, ls).Err?
    ensures var l := NiiLayout(dime, filetype, NiiVoxelOf(dime.datatypeCode).value, ls);
      ReadVoxels(l, src, ReadLists(l.dim, ls)).Ok? ==> ReadNiiSpec(dime, filetype, src, ls) == Err(TypeError)
  {
    var code := dime.datatypeCode;
    NiiVoxelTable(code);
    var l := NiiLayout(dime, filetype, NiiVoxelOf(code).value, ls);
    assert l.dim[1..8] == [1, 1, 1] + [1, 1, 1, 1];
    ProdAppend([1, 1, 1], [1, 1, 1, 1]);
    Prod3(1, 1, 1);
    Prod4(1, 1, 1, 1);
    assert l.dim[4..8] == [1, 1, 1, 1];
    assert l.size == 1;
    if ReadVoxels(l, src, ReadLists(l.dim, ls)).Ok? {
      NumericLeaves(Some(src.data), l.start, src.littleEndian, l.size, KindOf(l.precision), src.fmt);
    }
  }

  /** Only the eight plain numeric datatypes ever load. */
  lemma LoadableTypes(dime: Dime8, filetype: int, src: Source, ls: Lists, oldRgb: bool,
                      normalise: (Value, real, real) -> Value)
    requires ReadNii(dime, filetype, src, ls, oldRgb, normalise).Ok?
    ensures dime.datatypeCode in {2, 4, 8, 16, 64, 256, 512, 768}
  {
    var code := dime.datatypeCode;
    NiiVoxelTable(code);
    if IsComplex(code) {
      ComplexFails(dime, filetype, src, ls);
    } else if code == 1024 || code == 1280 {
      Int64NeverLoads(dime, filetype, src, ls, oldRgb, normalise);
    }
  }

  /**
   * glmax only grows and glmin only shrinks, both bound every value read
   * that compares as a number, and each is its old value or one of them.
   */
  lemma NiiRangeBounds(dime: Dime8, filetype: int, src: Source, ls: Lists)
    requires ReadNiiSpec(dime, filetype, src, ls).Ok?
    ensures var vx := ReadNiiSpec(dime, filetype, src, ls).value;
      var flat := Leaves(vx.img);
      dime.glmax <= vx.dime.glmax && vx.dime.glmin <= dime.glmin &&
      (forall i :: 0 <= i < |flat| && NumberOf(flat[i]).Some? ==>
         vx.dime.glmin <= NumberOf(flat[i]).value <= vx.dime.glmax) &&
      (vx.dime.glmax == dime.glmax || exists i :: 0 <= i < |flat| && NumberOf(flat[i]) == Some(vx.dime.glmax)) &&
      (vx.dime.glmin == dime.glmin || exists i :: 0 <= i < |flat| && NumberOf(flat[i]) == Some(vx.dime.glmin))
  {
    var vx := ReadNiiSpec(dime, filetype, src, ls).value;
    ExtremesFacts(Leaves(vx.img), dime.glmax, dime.glmin);
  }

  // ----- read_image and load_nii_img -----

  /** The normalisation loop of the 511 branch: every item of img rescaled in place. */
  method NormaliseItems(img: seq<Value>, glmax: real, glmin: real, normalise: (Value, real, real) -> Value)
    returns (items: seq<Value>)
    ensures items == Normalised(img, glmax, glmin, normalise)
  {
    items := img;
    var i := 0;
    while i < |items|
      invariant 0 <= i <= |items| && |items| == |img|
      invariant forall j :: 0 <= j < i ==> items[j] == normalise(img[j], glmax, glmin)
      invariant forall j :: i <= j < |items| ==> items[j] == img[j]
    {
      items := items[i := normalise(items[i], glmax, glmin)];
      i := i + 1;
    }
    assert items == Normalised(img, glmax, glmin, normalise);
  }

  /**
   * An RGB arrangement: the reshape, whose error is returned as it is, then
   * `permute` with a single number as the order, which throws a TypeError.
   */
  method ReshapeThenPermute(img: Value, sizes: seq<int>) returns (r: Outcome<Value>)
    ensures ReshapeSpec(img, sizes).Err? ==> r == Err(ReshapeSpec(img, sizes).error)
    ensures ReshapeSpec(img, sizes).Ok? ==> r == Err(TypeError)
  {
    var s := ArrayOf(sizes);
    r := Reshape(img, s);
    if r.Ok? {
      r := Err(TypeError);
    }
  }

  /** The arrangement after the reads. */
  method ArrangeNii(vx: Voxels, oldRgb: bool, normalise: (Value, real, real) -> Value)
    returns (shaped: Outcome<Value>)
    requires vx.img.Arr?
    ensures shaped == ArrangedNii(vx, oldRgb, normalise)
  {
    var dim := vx.dime.dim;
    var lens := Lengths(vx.lists);
    if vx.dime.datatypeCode == 128 {
      var sizes := if oldRgb then [dim[1], dim[2], 3, dim[3]] + lens else [3, dim[1], dim[2], dim[3]] + lens;
      shaped := ReshapeThenPermute(vx.img, sizes);
    } else if vx.dime.datatypeCode == 511 {
      var items := NormaliseItems(vx.img.items, vx.dime.glmax, vx.dime.glmin, normalise);
      shaped := ReshapeThenPermute(Arr(items), [3, dim[1], dim[2], dim[3]] + lens);
    } else {
      var sizes := ArrayOf(VolumeSizes(dim, vx.lists));
      shaped := Reshape(vx.img, sizes);
    }
  }

  /**
   * `read_image(hdr, filetype, machine, img_idx, dim5_idx, dim6_idx,
   * dim7_idx, old_RGB, data)`. `normalise` stands for the floating-point
   * expression (val - glmin) / (glmax - glmin) of the 511 branch.
   */
  method ReadNiiImage(dime: Dime8, filetype: int, machine: string, ls: Lists, oldRgb: bool,
                      data: seq<Byte>, fmt: FloatFormat, normalise: (Value, real, real) -> Value)
    returns (r: Outcome<(Value, Dime8)>)
    ensures r == ReadNii(dime, filetype, Source(data, machine == "ieee-le", fmt), ls, oldRgb, normalise)
  {
    var src := Source(data, machine == "ieee-le", fmt);
    var fid := new File("", machine);
    fid.Fopen(data);
    var v := NiiVoxelOf(dime.datatypeCode);
    if v.None? {
      return Err(Thrown(UnsupportedMessage));
    }
    var l := NiiLayout(dime, filetype, v.value, ls);
    var read := ReadVoxelsFrom(fid, l, src, ReadLists(l.dim, ls));
    if read.Err? {
      return Err(read.error);
    }
    var (img, lists) := read.value;
    if !img.Arr? {
      return Err(TypeError);
    }
    var flat := Leaves(img);
    if IsComplex(dime.datatypeCode) {
      var halves := ArrayOf([2, |flat| / 2]);
      var split := Reshape(Arr(flat), halves);
      if split.Err? {
        return Err(split.error);
      }
      return Err(ReferenceError);
    }
    var glmax, glmin := UpdateRange(flat, dime.glmax, dime.glmin);
    fid.Fclose();
    var vx := Voxels(img, dime.(bitpix := v.value.bitpix, dim := l.dim, glmax := glmax, glmin := glmin), lists);
    assert ReadNiiSpec(dime, filetype, src, ls) == Ok(vx);
    var shaped := ArrangeNii(vx, oldRgb, normalise);
    if shaped.Err? {
      return Err(shaped.error);
    }
    var hdr := FinalDime(vx);
    var unwrapped := Unwrap(shaped.value);
    if unwrapped.Err? {
      return Err(unwrapped.error);
    }
    r := Ok((unwrapped.value, hdr));
  }

  /**
   * `load_nii_img(hdr, filetype, fileprefix, machine, data, ...)`: the
   * usage check and check_argin on the four lists, as in
   * load_untouch_nii_img with no slice_idx (an empty one passes), then
   * read_image.
   */
  method LoadNiiImg(dime: Dime8, filetype: int, fileprefix: string, machine: string, data: seq<Byte>,
                    ls: Lists, oldRgb: bool, fmt: FloatFormat, normalise: (Value, real, real) -> Value)
    returns (r: Outcome<(Value, Dime8)>)
    ensures ArgsChecked(filetype, fileprefix, machine, dime.dim, ls, []).Err? ==>
      r == Err(ArgsChecked(filetype, fileprefix, machine, dime.dim, ls, []).error)
    ensures ArgsChecked(filetype, fileprefix, machine, dime.dim, ls, []).Ok? ==>
      r == ReadNii(dime, filetype, Source(data, machine == "ieee-le", fmt), ls, oldRgb, normalise)
  {
    var checked := ArgsChecked(filetype, fileprefix, machine, dime.dim, ls, []);
    if checked.Err? {
      return Err(checked.error);
    }
    r := ReadNiiImage(dime, filetype, machine, ls, oldRgb, data, fmt, normalise);
  }
}
