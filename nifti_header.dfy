// The NIfTI-1 header reader: the 348-byte `nifti_1_header` read as three
// blocks (header_key, 40 bytes; image_dimension, 108 bytes; data_history,
// 200 bytes) through one FILE cursor, the byte-order detection on
// sizeof_hdr, the file type taken from the magic string, and the file
// prefix taken from the extension.

module NiftiHeader {
  import opened JsValues
  import opened Bytes
  import opened FileCursor
  import opened HeaderFields

  /** `hk`: the header_key block. The Analyze reader calls the last byte hkey_un0. */
  datatype HeaderKey = HeaderKey(
    sizeofHdr: int, dataType: string, dbName: string, extents: int,
    sessionError: int, regular: string, dimInfo: int)

  /** `dime`: the image_dimension block of a NIfTI-1 header. */
  datatype ImageDimension = ImageDimension(
    dim: seq<int>, intentP1: real, intentP2: real, intentP3: real,
    intentCode: int, datatypeCode: int, bitpix: int, sliceStart: int,
    pixdim: seq<real>, voxOffset: real, sclSlope: real, sclInter: real,
    sliceEnd: int, sliceCode: int, xyztUnits: int,
    calMax: real, calMin: real, sliceDuration: real, toffset: real,
    glmax: int, glmin: int)

  /** `hist`: the data_history block of a NIfTI-1 header, with the originator re-read from byte 253. */
  datatype DataHistory = DataHistory(
    descrip: string, auxFile: string, qformCode: int, sformCode: int,
    quaternB: real, quaternC: real, quaternD: real,
    qoffsetX: real, qoffsetY: real, qoffsetZ: real,
    srowX: seq<real>, srowY: seq<real>, srowZ: seq<real>,
    intentName: string, magic: string, originator: seq<int>)

  /** `dsr`. */
  datatype Header = Header(hk: HeaderKey, dime: ImageDimension, hist: DataHistory)

  // ----- the layout, at absolute byte positions -----

  const HeaderKeySize: nat := 40
  const ImageDimensionSize: nat := 108
  const DataHistorySize: nat := 200
  /** Where the originator is re-read from, and how many bytes it takes. */
  const OriginatorAt: nat := 253
  const OriginatorEnd: nat := 263

  /** The header_key block in `content`, which header_key always reads from byte 0. */
  function HeaderKeyAt(content: Option<seq<Byte>>, littleEndian: bool): Outcome<HeaderKey>
  {
    match Access(content, 0, HeaderKeySize)
    case Some(e) => Err(e)
    case None => Ok(HeaderKeyOf(content.value, littleEndian))
  }

  /** The fields of the header_key block at their byte positions. */
  function HeaderKeyOf(b: seq<Byte>, littleEndian: bool): HeaderKey
    requires HeaderKeySize <= |b|
  {
      HeaderKey(
        IntAt(b, 0, littleEndian, Int32), TextAt(b, 4, 10), TextAt(b, 14, 18), IntAt(b, 32, littleEndian, Int32),
        IntAt(b, 36, littleEndian, Int16), TextAt(b, 38, 1), IntAt(b, 39, littleEndian, Uint8))
  }

  /** The image_dimension block of a NIfTI-1 header starting at byte `at`. */
  function ImageDimensionAt(content: Option<seq<Byte>>, at: int, le: bool, fmt: FloatFormat): Outcome<ImageDimension>
  {
    match Access(content, at, ImageDimensionSize)
    case Some(e) => Err(e)
    case None => Ok(ImageDimensionOf(content.value, at, le, fmt))
  }

  /** The fields of a NIfTI-1 image_dimension block at their byte positions. */
  function ImageDimensionOf(b: seq<Byte>, at: nat, le: bool, fmt: FloatFormat): ImageDimension
    requires at + ImageDimensionSize <= |b|
  {
      ImageDimension(
        IntsAt(b, at, 8, le, Int16), RealAt(b, at + 16, le, Float32, fmt),
        RealAt(b, at + 20, le, Float32, fmt), RealAt(b, at + 24, le, Float32, fmt),
        IntAt(b, at + 28, le, Int16), IntAt(b, at + 30, le, Int16), IntAt(b, at + 32, le, Int16), IntAt(b, at + 34, le, Int16),
        RealsAt(b, at + 36, 8, le, Float32, fmt), RealAt(b, at + 68, le, Float32, fmt),
        RealAt(b, at + 72, le, Float32, fmt), RealAt(b, at + 76, le, Float32, fmt),
        IntAt(b, at + 80, le, Int16), IntAt(b, at + 82, le, Uint8), IntAt(b, at + 83, le, Uint8),
        RealAt(b, at + 84, le, Float32, fmt), RealAt(b, at + 88, le, Float32, fmt),
        RealAt(b, at + 92, le, Float32, fmt), RealAt(b, at + 96, le, Float32, fmt),
        IntAt(b, at + 100, le, Int32), IntAt(b, at + 104, le, Int32))
  }

  /**
   * The data_history block of a NIfTI-1 header starting at byte `at`; the
   * originator always comes from bytes 253 to 263, wherever the block is.
   */
  function DataHistoryAt(content: Option<seq<Byte>>, at: int, le: bool, fmt: FloatFormat): Outcome<DataHistory>
  {
    match Access(content, at, DataHistorySize)
    case Some(e) => Err(e)
    case None =>
      match Access(content, OriginatorAt, OriginatorEnd - OriginatorAt)
      case Some(e) => Err(e)
      case None => Ok(DataHistoryOf(content.value, at, le, fmt))
  }

  /** The fields of a NIfTI-1 data_history block at their byte positions, and the originator at 253. */
  function DataHistoryOf(b: seq<Byte>, at: nat, le: bool, fmt: FloatFormat): DataHistory
    requires at + DataHistorySize <= |b| && OriginatorEnd <= |b|
  {
        DataHistory(
          TextAt(b, at, 80), TextAt(b, at + 80, 24), IntAt(b, at + 104, le, Int16), IntAt(b, at + 106, le, Int16),
          RealAt(b, at + 108, le, Float32, fmt), RealAt(b, at + 112, le, Float32, fmt), RealAt(b, at + 116, le, Float32, fmt),
          RealAt(b, at + 120, le, Float32, fmt), RealAt(b, at + 124, le, Float32, fmt), RealAt(b, at + 128, le, Float32, fmt),
          RealsAt(b, at + 132, 4, le, Float32, fmt), RealsAt(b, at + 148, 4, le, Float32, fmt), RealsAt(b, at + 164, 4, le, Float32, fmt),
          TextAt(b, at + 180, 16), TextAt(b, at + 196, 4), IntsAt(b, OriginatorAt, 5, le, Int16))
  }

  /** The three blocks back to back from byte 0. */
  function HeaderAt(content: Option<seq<Byte>>, le: bool, fmt: FloatFormat): Outcome<Header>
  {
    var hk :- HeaderKeyAt(content, le);
    var dime :- ImageDimensionAt(content, HeaderKeySize, le, fmt);
    var hist :- DataHistoryAt(content, HeaderKeySize + ImageDimensionSize, le, fmt);
    Ok(Header(hk, dime, hist))
  }

  // ----- the readers -----

  /**
   * The guard `!magic === 'n+1' && !magic === 'ni1'` of read_header, which
   * compares a boolean with a string and so never holds.
   */
  function CodeGuard(magic: string): (holds: bool)
    ensures !holds
  {
    StrictEq(Bool(!Truthy(Str(magic))), Str("n+1")) && StrictEq(Bool(!Truthy(Str(magic))), Str("ni1"))
  }

  /** read_header's clean-up of qform_code and sform_code, which leaves them as read. */
  function ApplyCodeGuard(hist: DataHistory): (r: DataHistory)
    ensures r == hist
  {
    if CodeGuard(hist.magic) then hist.(qformCode := 0, sformCode := 0) else hist
  }

  /** The file type: 2 for a single .nii file, 1 for a .hdr/.img pair, 0 for Analyze 7.5. */
  function FileType(magic: string): (t: int)
    ensures t == 2 <==> magic == "n+1"
    ensures t == 1 <==> magic == "ni1"
    ensures t == 0 <==> magic != "n+1" && magic != "ni1"
  {
    if magic == "n+1" then 2 else if magic == "ni1" then 1 else 0
  }

  // ----- the readers -----

  // Each block reader checks up front that its block lies in the buffer and
  // throws the exception the first read to leave it would throw.

  /** The 40 bytes of the header_key block, from byte 0 of a buffer that holds them. */
  method ReadHeaderKeyIn(fid: File, fmt: FloatFormat, ghost b: seq<Byte>, ghost le: bool) returns (hk: HeaderKey)
    requires fid.content == Some(b) && fid.offset == 0.0 && fid.littleEndian == le && HeaderKeySize <= |b|
    modifies fid
    ensures fid.content == Some(b) && fid.littleEndian == le && fid.offset == HeaderKeySize as real
    ensures hk == HeaderKeyOf(b, le)
  {
    var sizeofHdr := ReadInt(fid, Int32, fmt, b, 0, le);
    var dataType := ReadText(fid, 10, fmt, b, 4, le);
    var dbName := ReadText(fid, 18, fmt, b, 14, le);
    var extents := ReadInt(fid, Int32, fmt, b, 32, le);
    var sessionError := ReadInt(fid, Int16, fmt, b, 36, le);
    var regular := ReadText(fid, 1, fmt, b, 38, le);
    var dimInfo := ReadInt(fid, Uint8, fmt, b, 39, le);
    hk := HeaderKey(sizeofHdr, dataType, dbName, extents, sessionError, regular, dimInfo);
  }

  /** `header_key(fid)`: rewind, then read the 40-byte block. */
  method ReadHeaderKey(fid: File, fmt: FloatFormat) returns (r: Outcome<HeaderKey>)
    modifies fid
    ensures fid.content == old(fid.content) && fid.littleEndian == old(fid.littleEndian)
    ensures r == HeaderKeyAt(old(fid.content), fid.littleEndian)
    ensures r.Ok? ==> fid.offset == HeaderKeySize as real
  {
    fid.Frewind();
    var failure := Access(fid.content, 0, HeaderKeySize);
    if failure.Some? {
      return Err(failure.value);
    }
    var hk := ReadHeaderKeyIn(fid, fmt, fid.content.value, fid.littleEndian);
    return Ok(hk);
  }

  /** The first 36 bytes of image_dimension: dim, the three intent parameters, intent_code, datatype, bitpix, slice_start. */
  method ReadDimensions(fid: File, fmt: FloatFormat, ghost b: seq<Byte>, ghost at: nat, ghost le: bool)
    returns (dim: seq<int>, p1: real, p2: real, p3: real, intentCode: int, datatypeCode: int, bitpix: int, sliceStart: int)
    requires fid.content == Some(b) && fid.offset == at as real && fid.littleEndian == le && at + 36 <= |b|
    modifies fid
    ensures fid.content == Some(b) && fid.littleEndian == le && fid.offset == (at + 36) as real
    ensures dim == IntsAt(b, at, 8, le, Int16)
    ensures p1 == RealAt(b, at + 16, le, Float32, fmt) && p2 == RealAt(b, at + 20, le, Float32, fmt)
    ensures p3 == RealAt(b, at + 24, le, Float32, fmt)
    ensures intentCode == IntAt(b, at + 28, le, Int16) && datatypeCode == IntAt(b, at + 30, le, Int16)
    ensures bitpix == IntAt(b, at + 32, le, Int16) && sliceStart == IntAt(b, at + 34, le, Int16)
  {
    dim := ReadInts(fid, 8, Int16, fmt, b, at, le);
    p1 := ReadReal(fid, Float32, fmt, b, at + 16, le);
    p2 := ReadReal(fid, Float32, fmt, b, at + 20, le);
    p3 := ReadReal(fid, Float32, fmt, b, at + 24, le);
    intentCode := ReadInt(fid, Int16, fmt, b, at + 28, le);
    datatypeCode := ReadInt(fid, Int16, fmt, b, at + 30, le);
    bitpix := ReadInt(fid, Int16, fmt, b, at + 32, le);
    sliceStart := ReadInt(fid, Int16, fmt, b, at + 34, le);
  }

  /** The next 44 bytes: pixdim, vox_offset, scl_slope, scl_inter. */
  method ReadScaling(fid: File, fmt: FloatFormat, ghost b: seq<Byte>, ghost at: nat, ghost le: bool)
    returns (pixdim: seq<real>, voxOffset: real, sclSlope: real, sclInter: real)
    requires fid.content == Some(b) && fid.offset == at as real && fid.littleEndian == le && at + 44 <= |b|
    modifies fid
    ensures fid.content == Some(b) && fid.littleEndian == le && fid.offset == (at + 44) as real
    ensures pixdim == RealsAt(b, at, 8, le, Float32, fmt) && voxOffset == RealAt(b, at + 32, le, Float32, fmt)
    ensures sclSlope == RealAt(b, at + 36, le, Float32, fmt) && sclInter == RealAt(b, at + 40, le, Float32, fmt)
  {
    pixdim := ReadReals(fid, 8, Float32, fmt, b, at, le);
    voxOffset := ReadReal(fid, Float32, fmt, b, at + 32, le);
    sclSlope := ReadReal(fid, Float32, fmt, b, at + 36, le);
    sclInter := ReadReal(fid, Float32, fmt, b, at + 40, le);
  }

  /** The next 20 bytes: slice_end, slice_code, xyzt_units, cal_max, cal_min, slice_duration, toffset. */
  method ReadTiming(fid: File, fmt: FloatFormat, ghost b: seq<Byte>, ghost at: nat, ghost le: bool)
    returns (sliceEnd: int, sliceCode: int, xyztUnits: int, calMax: real, calMin: real, sliceDuration: real, toffset: real)
    requires fid.content == Some(b) && fid.offset == at as real && fid.littleEndian == le && at + 20 <= |b|
    modifies fid
    ensures fid.content == Some(b) && fid.littleEndian == le && fid.offset == (at + 20) as real
    ensures sliceEnd == IntAt(b, at, le, Int16) && sliceCode == IntAt(b, at + 2, le, Uint8)
    ensures xyztUnits == IntAt(b, at + 3, le, Uint8)
    ensures calMax == RealAt(b, at + 4, le, Float32, fmt) && calMin == RealAt(b, at + 8, le, Float32, fmt)
    ensures sliceDuration == RealAt(b, at + 12, le, Float32, fmt) && toffset == RealAt(b, at + 16, le, Float32, fmt)
  {
    sliceEnd := ReadInt(fid, Int16, fmt, b, at, le);
    sliceCode := ReadInt(fid, Uint8, fmt, b, at + 2, le);
    xyztUnits := ReadInt(fid, Uint8, fmt, b, at + 3, le);
    calMax := ReadReal(fid, Float32, fmt, b, at + 4, le);
    calMin := ReadReal(fid, Float32, fmt, b, at + 8, le);
    sliceDuration := ReadReal(fid, Float32, fmt, b, at + 12, le);
    toffset := ReadReal(fid, Float32, fmt, b, at + 16, le);
  }

  /** The 108 bytes of a NIfTI-1 image_dimension block that lies in the buffer. */
  method ReadImageDimensionIn(fid: File, fmt: FloatFormat, ghost b: seq<Byte>, ghost at: nat, ghost le: bool) returns (d: ImageDimension)
    requires fid.content == Some(b) && fid.offset == at as real && fid.littleEndian == le && at + ImageDimensionSize <= |b|
    modifies fid
    ensures fid.content == Some(b) && fid.littleEndian == le && fid.offset == (at + ImageDimensionSize) as real
    ensures d == ImageDimensionOf(b, at, le, fmt)
  {
    var dim, intentP1, intentP2, intentP3, intentCode, datatypeCode, bitpix, sliceStart := ReadDimensions(fid, fmt, b, at, le);
    var pixdim, voxOffset, sclSlope, sclInter := ReadScaling(fid, fmt, b, at + 36, le);
    var sliceEnd, sliceCode, xyztUnits, calMax, calMin, sliceDuration, toffset := ReadTiming(fid, fmt, b, at + 80, le);
    var glmax := ReadInt(fid, Int32, fmt, b, at + 100, le);
    var glmin := ReadInt(fid, Int32, fmt, b, at + 104, le);
    d := ImageDimension(
      dim, intentP1, intentP2, intentP3, intentCode, datatypeCode, bitpix, sliceStart,
      pixdim, voxOffset, sclSlope, sclInter, sliceEnd, sliceCode, xyztUnits,
      calMax, calMin, sliceDuration, toffset, glmax, glmin);
  }

  /** `image_dimension(fid)`: the 108-byte block at the cursor. */
  method ReadImageDimension(fid: File, fmt: FloatFormat, ghost at: int) returns (r: Outcome<ImageDimension>)
    requires fid.offset == at as real
    modifies fid
    ensures fid.content == old(fid.content) && fid.littleEndian == old(fid.littleEndian)
    ensures r == ImageDimensionAt(old(fid.content), at, fid.littleEndian, fmt)
    ensures r.Ok? ==> fid.offset == (at + ImageDimensionSize) as real
  {
    var start := fid.offset.Floor;
    var failure := Access(fid.content, start, ImageDimensionSize);
    if failure.Some? {
      return Err(failure.value);
    }
    var d := ReadImageDimensionIn(fid, fmt, fid.content.value, start, fid.littleEndian);
    return Ok(d);
  }

  /** The first 108 bytes of data_history: descrip, aux_file, qform_code and sform_code. */
  method ReadDescription(fid: File, fmt: FloatFormat, ghost b: seq<Byte>, ghost at: nat, ghost le: bool)
    returns (descrip: string, auxFile: string, qformCode: int, sformCode: int)
    requires fid.content == Some(b) && fid.offset == at as real && fid.littleEndian == le && at + 108 <= |b|
    modifies fid
    ensures fid.content == Some(b) && fid.littleEndian == le && fid.offset == (at + 108) as real
    ensures descrip == TextAt(b, at, 80) && auxFile == TextAt(b, at + 80, 24)
    ensures qformCode == IntAt(b, at + 104, le, Int16) && sformCode == IntAt(b, at + 106, le, Int16)
  {
    descrip := ReadText(fid, 80, fmt, b, at, le);
    auxFile := ReadText(fid, 24, fmt, b, at + 80, le);
    qformCode := ReadInt(fid, Int16, fmt, b, at + 104, le);
    sformCode := ReadInt(fid, Int16, fmt, b, at + 106, le);
  }

  /** The quaternion parameters quatern_b to qoffset_z, six floats. */
  method ReadQuaternion(fid: File, fmt: FloatFormat, ghost b: seq<Byte>, ghost at: nat, ghost le: bool)
    returns (qb: real, qc: real, qd: real, qx: real, qy: real, qz: real)
    requires fid.content == Some(b) && fid.offset == at as real && fid.littleEndian == le && at + 24 <= |b|
    modifies fid
    ensures fid.content == Some(b) && fid.littleEndian == le && fid.offset == (at + 24) as real
    ensures qb == RealAt(b, at, le, Float32, fmt) && qc == RealAt(b, at + 4, le, Float32, fmt)
    ensures qd == RealAt(b, at + 8, le, Float32, fmt) && qx == RealAt(b, at + 12, le, Float32, fmt)
    ensures qy == RealAt(b, at + 16, le, Float32, fmt) && qz == RealAt(b, at + 20, le, Float32, fmt)
  {
    qb := ReadReal(fid, Float32, fmt, b, at, le);
    qc := ReadReal(fid, Float32, fmt, b, at + 4, le);
    qd := ReadReal(fid, Float32, fmt, b, at + 8, le);
    qx := ReadReal(fid, Float32, fmt, b, at + 12, le);
    qy := ReadReal(fid, Float32, fmt, b, at + 16, le);
    qz := ReadReal(fid, Float32, fmt, b, at + 20, le);
  }

  /** The three rows srow_x, srow_y, srow_z of the affine, four floats each. */
  method ReadAffineRows(fid: File, fmt: FloatFormat, ghost b: seq<Byte>, ghost at: nat, ghost le: bool)
    returns (x: seq<real>, y: seq<real>, z: seq<real>)
    requires fid.content == Some(b) && fid.offset == at as real && fid.littleEndian == le && at + 48 <= |b|
    modifies fid
    ensures fid.content == Some(b) && fid.littleEndian == le && fid.offset == (at + 48) as real
    ensures x == RealsAt(b, at, 4, le, Float32, fmt) && y == RealsAt(b, at + 16, 4, le, Float32, fmt)
    ensures z == RealsAt(b, at + 32, 4, le, Float32, fmt)
  {
    x := ReadReals(fid, 4, Float32, fmt, b, at, le);
    y := ReadReals(fid, 4, Float32, fmt, b, at + 16, le);
    z := ReadReals(fid, 4, Float32, fmt, b, at + 32, le);
  }

  /** The 200 bytes of a NIfTI-1 data_history block that lies in the buffer, then the originator from byte 253. */
  method ReadDataHistoryIn(fid: File, fmt: FloatFormat, ghost b: seq<Byte>, ghost at: nat, ghost le: bool) returns (h: DataHistory)
    requires fid.content == Some(b) && fid.offset == at as real && fid.littleEndian == le
    requires at + DataHistorySize <= |b| && OriginatorEnd <= |b|
    modifies fid
    ensures fid.content == Some(b) && fid.littleEndian == le && fid.offset == OriginatorEnd as real
    ensures h == DataHistoryOf(b, at, le, fmt)
  {
    var descrip, auxFile, qformCode, sformCode := ReadDescription(fid, fmt, b, at, le);
    var quaternB, quaternC, quaternD, qoffsetX, qoffsetY, qoffsetZ := ReadQuaternion(fid, fmt, b, at + 108, le);
    var srowX, srowY, srowZ := ReadAffineRows(fid, fmt, b, at + 132, le);
    var intentName := ReadText(fid, 16, fmt, b, at + 180, le);
    var magic := ReadText(fid, 4, fmt, b, at + 196, le);
    var _ := fid.Fseek(OriginatorAt as real, "bof");
    var originator := ReadInts(fid, 5, Int16, fmt, b, OriginatorAt, le);
    h := DataHistory(
      descrip, auxFile, qformCode, sformCode, quaternB, quaternC, quaternD,
      qoffsetX, qoffsetY, qoffsetZ, srowX, srowY, srowZ, intentName, magic, originator);
  }

  /** `data_history(fid)`: the 200-byte block at the cursor, then the originator from byte 253. */
  method ReadDataHistory(fid: File, fmt: FloatFormat, ghost at: int) returns (r: Outcome<DataHistory>)
    requires fid.offset == at as real
    modifies fid
    ensures fid.content == old(fid.content) && fid.littleEndian == old(fid.littleEndian)
    ensures r == DataHistoryAt(old(fid.content), at, fid.littleEndian, fmt)
    ensures r.Ok? ==> fid.offset == OriginatorEnd as real
  {
    var start := fid.offset.Floor;
    var failure := Access(fid.content, start, DataHistorySize);
    if failure.Some? {
      return Err(failure.value);
    }
    failure := Access(fid.content, OriginatorAt, OriginatorEnd - OriginatorAt);
    if failure.Some? {
      return Err(failure.value);
    }
    var h := ReadDataHistoryIn(fid, fmt, fid.content.value, start, fid.littleEndian);
    return Ok(h);
  }

  /** `read_header(fid)`: the three blocks from byte 0 in the cursor's byte order. */
  method ReadHeader(fid: File, fmt: FloatFormat) returns (r: Outcome<Header>)
    modifies fid
    ensures fid.content == old(fid.content) && fid.littleEndian == old(fid.littleEndian)
    ensures r == HeaderAt(old(fid.content), fid.littleEndian, fmt)
    ensures r.Ok? ==> fid.offset == OriginatorEnd as real
  {
    var hk :- ReadHeaderKey(fid, fmt);
    var dime :- ReadImageDimension(fid, fmt, HeaderKeySize);
    var hist :- ReadDataHistory(fid, fmt, HeaderKeySize + ImageDimensionSize);
    hist := ApplyCodeGuard(hist);
    return Ok(Header(hk, dime, hist));
  }

  // ----- load_nii_hdr -----

  /** What load_nii_hdr returns: the header, the file type, the file name without extension and the byte order. */
  datatype NiiHdr = NiiHdr(hdr: Header, filetype: int, fileprefix: string, machine: string)

  const UsageMessage := "Usage: [hdr, filetype, fileprefix, machine] = load_nii_hdr(filename)"
  const ExtensionMessage := "Supported extension type : .nii .hdr .img"
  /** The message is a plain string literal, so `${filename}` is not replaced by the name. */
  const CorruptedMessage := "File ${filename} is corrupted."
  /** sizeof_hdr of a NIfTI-1 or Analyze 7.5 header. */
  const SizeofHdr := 348

  /** `filename.substr(filename.length - 4)`. */
  function Extension(filename: string): string
  {
    Substr(filename, |filename| - 4)
  }

  predicate IsImageName(filename: string)
  {
    Extension(filename) == ".nii" || Extension(filename) == ".hdr" || Extension(filename) == ".img"
  }

  /** The int32 at byte 0 in the given byte order. */
  function FirstWord(data: seq<Byte>, le: bool): int
    requires 4 <= |data|
  {
    IntAt(data, 0, le, Int32)
  }

  /**
   * load_nii_hdr(filename, data): the usage and extension errors, then the
   * header read little-endian when sizeof_hdr reads 348 that way, else
   * big-endian when it reads 348 that way, else the corrupted-file error.
   */
  function LoadNiiHdrSpec(filename: string, data: seq<Byte>, fmt: FloatFormat): Outcome<NiiHdr>
  {
    if filename == "" then Err(Thrown(UsageMessage))
    else if !IsImageName(filename) then Err(Thrown(ExtensionMessage))
    else if |data| < 4 then Err(RangeError)
    else
      var le := FirstWord(data, true) == SizeofHdr;
      if !le && FirstWord(data, false) != SizeofHdr then Err(Thrown(CorruptedMessage))
      else
        var hdr :- HeaderAt(Some(data), le, fmt);
        Ok(NiiHdr(hdr, FileType(hdr.hist.magic), SliceDropLast(filename, 4), if le then "ieee-le" else "ieee-be"))
  }

  /** `fid.fread(1, 'int32')` at byte 0 of an opened buffer. */
  lemma FirstRead(data: seq<Byte>, le: bool, fmt: FloatFormat)
    ensures var (r, end) := ReadSpec(Some(data), 0.0, le, 1, Int32, fmt);
      if |data| < 4 then r == Err(RangeError)
      else r.Ok? && (StrictEq(r.value, Num(SizeofHdr as real)) <==> FirstWord(data, le) == SizeofHdr)
  {
  }

  /** `load_nii_hdr(filename, data)`. */
  method LoadNiiHdr(filename: string, data: seq<Byte>, fmt: FloatFormat) returns (r: Outcome<NiiHdr>)
    ensures r == LoadNiiHdrSpec(filename, data, fmt)
  {
    if filename == "" {
      return Err(Thrown(UsageMessage));
    }
    var machine := "ieee-le";
    var fileprefix;
    if Extension(filename) == ".nii" {
      fileprefix := SliceDropLast(filename, 4);
    } else if Extension(filename) == ".hdr" {
      fileprefix := SliceDropLast(filename, 4);
    } else if Extension(filename) == ".img" {
      fileprefix := SliceDropLast(filename, 4);
    } else {
      return Err(Thrown(ExtensionMessage));
    }
    var fid := new File("", machine);
    fid.Fopen(data);
    fid.Frewind();
    FirstRead(data, true, fmt);
    var first :- fid.Fread(1, TagOf(Int32), fmt);
    var hdr;
    if StrictEq(first, Num(SizeofHdr as real)) {
      hdr :- ReadHeader(fid, fmt);
    } else {
      machine := "ieee-be";
      fid.littleEndian := false;
      fid.Frewind();
      FirstRead(data, false, fmt);
      // The first read succeeded, so this one, over the same four bytes, does too.
      var again := fid.Fread(1, TagOf(Int32), fmt);
      if !StrictEq(again.value, Num(SizeofHdr as real)) {
        return Err(Thrown(CorruptedMessage));
      }
      hdr :- ReadHeader(fid, fmt);
    }
    var filetype := 0;
    if hdr.hist.magic == "n+1" {
      filetype := 2;
    } else if hdr.hist.magic == "ni1" {
      filetype := 1;
    }
    fid.Fclose();
    return Ok(NiiHdr(hdr, filetype, fileprefix, machine));
  }

  // ----- what load_nii_hdr promises -----

  /** A supported name is at least four characters long and is its prefix followed by its extension. */
  lemma PrefixAndExtension(filename: string)
    requires IsImageName(filename)
    ensures |filename| >= 4 && Extension(filename) == filename[|filename| - 4..]
    ensures SliceDropLast(filename, 4) + Extension(filename) == filename
  {
    var n := |filename|;
    assert filename[..n - 4] + filename[n - 4..] == filename;
  }

  /** The three blocks of a header are read exactly when the buffer holds all 348 bytes, and a RangeError is thrown otherwise. */
  lemma HeaderExtent(b: seq<Byte>, le: bool, fmt: FloatFormat)
    ensures HeaderAt(Some(b), le, fmt).Ok? <==> |b| >= SizeofHdr
    ensures HeaderAt(Some(b), le, fmt).Err? ==> HeaderAt(Some(b), le, fmt).error == RangeError
  {
  }

  /**
   * The fields land at the byte positions of nifti_1_header: dim at 40,
   * datatype at 70, bitpix at 72, pixdim at 76, vox_offset at 108, glmax at
   * 140, qform_code at 252, srow_x at 280, magic at 344, and the originator
   * at 253.
   */
  lemma HeaderOffsets(b: seq<Byte>, le: bool, fmt: FloatFormat)
    requires |b| >= SizeofHdr
    ensures var h := HeaderAt(Some(b), le, fmt).value;
      h.hk.sizeofHdr == IntAt(b, 0, le, Int32) &&
      h.dime.dim == IntsAt(b, 40, 8, le, Int16) &&
      h.dime.datatypeCode == IntAt(b, 70, le, Int16) &&
      h.dime.bitpix == IntAt(b, 72, le, Int16) &&
      h.dime.pixdim == RealsAt(b, 76, 8, le, Float32, fmt) &&
      h.dime.voxOffset == RealAt(b, 108, le, Float32, fmt) &&
      h.dime.glmax == IntAt(b, 140, le, Int32) &&
      h.hist.qformCode == IntAt(b, 252, le, Int16) &&
      h.hist.sformCode == IntAt(b, 254, le, Int16) &&
      h.hist.srowX == RealsAt(b, 280, 4, le, Float32, fmt) &&
      h.hist.magic == TextAt(b, 344, 4) &&
      h.hist.originator == IntsAt(b, OriginatorAt, 5, le, Int16)
  {
  }

  /**
   * A header comes back in the byte order in which sizeof_hdr reads 348:
   * little-endian ('ieee-le') when it does so, big-endian ('ieee-be')
   * otherwise; its sizeof_hdr is then 348, the file type follows the magic
   * string and the prefix is the name without its extension.
   */
  lemma LoadedByteOrder(filename: string, data: seq<Byte>, fmt: FloatFormat)
    requires LoadNiiHdrSpec(filename, data, fmt).Ok?
    ensures var r := LoadNiiHdrSpec(filename, data, fmt).value;
      var le := r.machine == "ieee-le";
      |data| >= SizeofHdr &&
      (le <==> FirstWord(data, true) == SizeofHdr) &&
      (r.machine == "ieee-le" || r.machine == "ieee-be") &&
      r.hdr == HeaderAt(Some(data), le, fmt).value &&
      r.hdr.hk.sizeofHdr == SizeofHdr &&
      r.filetype == FileType(r.hdr.hist.magic) &&
      r.fileprefix + Extension(filename) == filename
  {
    var le := FirstWord(data, true) == SizeofHdr;
    HeaderExtent(data, le, fmt);
    HeaderOffsets(data, le, fmt);
    PrefixAndExtension(filename);
  }

  /**
   * The ways load_nii_hdr fails: the usage error for an empty name, the
   * extension error, a RangeError for a buffer too short for the header, and
   * the corrupted-file error when sizeof_hdr is 348 in neither byte order.
   */
  lemma LoadFailures(filename: string, data: seq<Byte>, fmt: FloatFormat)
    ensures var r := LoadNiiHdrSpec(filename, data, fmt);
      (r == Err(Thrown(UsageMessage)) <==> filename == "") &&
      (r == Err(Thrown(ExtensionMessage)) <==> filename != "" && !IsImageName(filename)) &&
      (r == Err(Thrown(CorruptedMessage)) <==>
         filename != "" && IsImageName(filename) && |data| >= 4 &&
         FirstWord(data, true) != SizeofHdr && FirstWord(data, false) != SizeofHdr) &&
      (r.Ok? <==>
         (filename != "" && IsImageName(filename) && |data| >= SizeofHdr &&
          (FirstWord(data, true) == SizeofHdr || FirstWord(data, false) == SizeofHdr)))
  {
    if filename != "" && IsImageName(filename) && |data| >= 4 {
      HeaderExtent(data, FirstWord(data, true) == SizeofHdr, fmt);
    }
  }
}
