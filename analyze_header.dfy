// The Analyze 7.5 header reader: the 348-byte `dsr` struct of dbh.h read
// as header_key, image_dimension and data_history through one FILE cursor
// from byte 0, in the byte order the caller names, with no check of
// sizeof_hdr.

module AnalyzeHeader {
  import opened JsValues
  import opened Bytes
  import opened FileCursor
  import opened HeaderFields
  import opened NiftiHeader

  /** `dime`: the image_dimension block of an Analyze 7.5 header. */
  datatype AnalyzeDimension = AnalyzeDimension(
    dim: seq<int>, voxUnits: string, calUnits: string,
    unused1: int, datatypeCode: int, bitpix: int, dimUn0: int,
    pixdim: seq<real>, voxOffset: real, roiScale: real, funused1: real, funused2: real,
    calMax: real, calMin: real,
    compressed: int, verified: int, glmax: int, glmin: int)

  /** `hist`: the data_history block of an Analyze 7.5 header. */
  datatype AnalyzeHistory = AnalyzeHistory(
    descrip: string, auxFile: string, orient: int, originator: seq<int>,
    generated: string, scannum: string, patientId: string, expDate: string, expTime: string, histUn0: string,
    views: int, volsAdded: int, startField: int, fieldSkip: int,
    omax: int, omin: int, smax: int, smin: int)

  datatype AnalyzeHeader = AnalyzeHeader(hk: HeaderKey, dime: AnalyzeDimension, hist: AnalyzeHistory)

  // ----- the layout, at absolute byte positions -----

  function AnalyzeDimensionAt(content: Option<seq<Byte>>, at: int, le: bool, fmt: FloatFormat): Outcome<AnalyzeDimension>
  {
    match Access(content, at, ImageDimensionSize)
    case Some(e) => Err(e)
    case None => Ok(AnalyzeDimensionOf(content.value, at, le, fmt))
  }

  /** The fields of an Analyze image_dimension block at their byte positions. */
  function AnalyzeDimensionOf(b: seq<Byte>, at: nat, le: bool, fmt: FloatFormat): AnalyzeDimension
    requires at + ImageDimensionSize <= |b|
  {
    AnalyzeDimension(
      IntsAt(b, at, 8, le, Int16), TextAt(b, at + 16, 4), TextAt(b, at + 20, 8),
      IntAt(b, at + 28, le, Int16), IntAt(b, at + 30, le, Int16), IntAt(b, at + 32, le, Int16), IntAt(b, at + 34, le, Int16),
      RealsAt(b, at + 36, 8, le, Float32, fmt), RealAt(b, at + 68, le, Float32, fmt), RealAt(b, at + 72, le, Float32, fmt),
      RealAt(b, at + 76, le, Float32, fmt), RealAt(b, at + 80, le, Float32, fmt),
      RealAt(b, at + 84, le, Float32, fmt), RealAt(b, at + 88, le, Float32, fmt),
      IntAt(b, at + 92, le, Int32), IntAt(b, at + 96, le, Int32), IntAt(b, at + 100, le, Int32), IntAt(b, at + 104, le, Int32))
  }

  function AnalyzeHistoryAt(content: Option<seq<Byte>>, at: int, le: bool): Outcome<AnalyzeHistory>
  {
    match Access(content, at, DataHistorySize)
    case Some(e) => Err(e)
    case None => Ok(AnalyzeHistoryOf(content.value, at, le))
  }

  /** The fields of an Analyze data_history block at their byte positions; orient is a signed byte. */
  function AnalyzeHistoryOf(b: seq<Byte>, at: nat, le: bool): AnalyzeHistory
    requires at + DataHistorySize <= |b|
  {
    AnalyzeHistory(
      TextAt(b, at, 80), TextAt(b, at + 80, 24), IntAt(b, at + 104, le, Int8), IntsAt(b, at + 105, 5, le, Int16),
      TextAt(b, at + 115, 10), TextAt(b, at + 125, 10), TextAt(b, at + 135, 10),
      TextAt(b, at + 145, 10), TextAt(b, at + 155, 10), TextAt(b, at + 165, 3),
      IntAt(b, at + 168, le, Int32), IntAt(b, at + 172, le, Int32), IntAt(b, at + 176, le, Int32), IntAt(b, at + 180, le, Int32),
      IntAt(b, at + 184, le, Int32), IntAt(b, at + 188, le, Int32), IntAt(b, at + 192, le, Int32), IntAt(b, at + 196, le, Int32))
  }

  /** The three Analyze blocks back to back from byte 0. */
  function AnalyzeHeaderAt(content: Option<seq<Byte>>, le: bool, fmt: FloatFormat): Outcome<AnalyzeHeader>
  {
    var hk :- HeaderKeyAt(content, le);
    var dime :- AnalyzeDimensionAt(content, HeaderKeySize, le, fmt);
    var hist :- AnalyzeHistoryAt(content, HeaderKeySize + ImageDimensionSize, le);
    Ok(AnalyzeHeader(hk, dime, hist))
  }

  // ----- the readers -----

  /** The first 36 bytes of image_dimension: dim, vox_units, cal_units, unused1, datatype, bitpix, dim_un0. */
  method ReadAnalyzeDims(fid: File, fmt: FloatFormat, ghost b: seq<Byte>, ghost at: nat, ghost le: bool)
    returns (dim: seq<int>, voxUnits: string, calUnits: string, unused1: int, datatypeCode: int, bitpix: int, dimUn0: int)
    requires fid.content == Some(b) && fid.offset == at as real && fid.littleEndian == le && at + 36 <= |b|
    modifies fid
    ensures fid.content == Some(b) && fid.littleEndian == le && fid.offset == (at + 36) as real
    ensures dim == IntsAt(b, at, 8, le, Int16) && voxUnits == TextAt(b, at + 16, 4) && calUnits == TextAt(b, at + 20, 8)
    ensures unused1 == IntAt(b, at + 28, le, Int16) && datatypeCode == IntAt(b, at + 30, le, Int16)
    ensures bitpix == IntAt(b, at + 32, le, Int16) && dimUn0 == IntAt(b, at + 34, le, Int16)
  {
    dim := ReadInts(fid, 8, Int16, fmt, b, at, le);
    voxUnits := ReadText(fid, 4, fmt, b, at + 16, le);
    calUnits := ReadText(fid, 8, fmt, b, at + 20, le);
    unused1 := ReadInt(fid, Int16, fmt, b, at + 28, le);
    datatypeCode := ReadInt(fid, Int16, fmt, b, at + 30, le);
    bitpix := ReadInt(fid, Int16, fmt, b, at + 32, le);
    dimUn0 := ReadInt(fid, Int16, fmt, b, at + 34, le);
  }

  /** The next 56 bytes: pixdim, vox_offset, roi_scale, funused1, funused2, cal_max, cal_min. */
  method ReadAnalyzeScaling(fid: File, fmt: FloatFormat, ghost b: seq<Byte>, ghost at: nat, ghost le: bool)
    returns (pixdim: seq<real>, voxOffset: real, roiScale: real, funused1: real, funused2: real, calMax: real, calMin: real)
    requires fid.content == Some(b) && fid.offset == at as real && fid.littleEndian == le && at + 56 <= |b|
    modifies fid
    ensures fid.content == Some(b) && fid.littleEndian == le && fid.offset == (at + 56) as real
    ensures pixdim == RealsAt(b, at, 8, le, Float32, fmt) && voxOffset == RealAt(b, at + 32, le, Float32, fmt)
    ensures roiScale == RealAt(b, at + 36, le, Float32, fmt) && funused1 == RealAt(b, at + 40, le, Float32, fmt)
    ensures funused2 == RealAt(b, at + 44, le, Float32, fmt) && calMax == RealAt(b, at + 48, le, Float32, fmt)
    ensures calMin == RealAt(b, at + 52, le, Float32, fmt)
  {
    pixdim := ReadReals(fid, 8, Float32, fmt, b, at, le);
    voxOffset := ReadReal(fid, Float32, fmt, b, at + 32, le);
    roiScale := ReadReal(fid, Float32, fmt, b, at + 36, le);
    funused1 := ReadReal(fid, Float32, fmt, b, at + 40, le);
    funused2 := ReadReal(fid, Float32, fmt, b, at + 44, le);
    calMax := ReadReal(fid, Float32, fmt, b, at + 48, le);
    calMin := ReadReal(fid, Float32, fmt, b, at + 52, le);
  }

  /** The 108 bytes of an Analyze image_dimension block that lies in the buffer. */
  method ReadAnalyzeDimensionIn(fid: File, fmt: FloatFormat, ghost b: seq<Byte>, ghost at: nat, ghost le: bool) returns (d: AnalyzeDimension)
    requires fid.content == Some(b) && fid.offset == at as real && fid.littleEndian == le && at + ImageDimensionSize <= |b|
    modifies fid
    ensures fid.content == Some(b) && fid.littleEndian == le && fid.offset == (at + ImageDimensionSize) as real
    ensures d == AnalyzeDimensionOf(b, at, le, fmt)
  {
    var dim, voxUnits, calUnits, unused1, datatypeCode, bitpix, dimUn0 := ReadAnalyzeDims(fid, fmt, b, at, le);
    var pixdim, voxOffset, roiScale, funused1, funused2, calMax, calMin := ReadAnalyzeScaling(fid, fmt, b, at + 36, le);
    var compressed := ReadInt(fid, Int32, fmt, b, at + 92, le);
    var verified := ReadInt(fid, Int32, fmt, b, at + 96, le);
    var glmax := ReadInt(fid, Int32, fmt, b, at + 100, le);
    var glmin := ReadInt(fid, Int32, fmt, b, at + 104, le);
    d := AnalyzeDimension(
      dim, voxUnits, calUnits, unused1, datatypeCode, bitpix, dimUn0,
      pixdim, voxOffset, roiScale, funused1, funused2, calMax, calMin,
      compressed, verified, glmax, glmin);
  }

  /** `image_dimension(fid)` of the Analyze reader: the 108-byte block at the cursor. */
  method ReadAnalyzeDimension(fid: File, fmt: FloatFormat, ghost at: int) returns (r: Outcome<AnalyzeDimension>)
    requires fid.offset == at as real
    modifies fid
    ensures fid.content == old(fid.content) && fid.littleEndian == old(fid.littleEndian)
    ensures r == AnalyzeDimensionAt(old(fid.content), at, fid.littleEndian, fmt)
    ensures r.Ok? ==> fid.offset == (at + ImageDimensionSize) as real
  {
    var start := fid.offset.Floor;
    var failure := Access(fid.content, start, ImageDimensionSize);
    if failure.Some? {
      return Err(failure.value);
    }
    var d := ReadAnalyzeDimensionIn(fid, fmt, fid.content.value, start, fid.littleEndian);
    return Ok(d);
  }

  /** The first 115 bytes of data_history: descrip, aux_file, orient, originator. */
  method ReadAnalyzeIdentity(fid: File, fmt: FloatFormat, ghost b: seq<Byte>, ghost at: nat, ghost le: bool)
    returns (descrip: string, auxFile: string, orient: int, originator: seq<int>)
    requires fid.content == Some(b) && fid.offset == at as real && fid.littleEndian == le && at + 115 <= |b|
    modifies fid
    ensures fid.content == Some(b) && fid.littleEndian == le && fid.offset == (at + 115) as real
    ensures descrip == TextAt(b, at, 80) && auxFile == TextAt(b, at + 80, 24)
    ensures orient == IntAt(b, at + 104, le, Int8) && originator == IntsAt(b, at + 105, 5, le, Int16)
  {
    descrip := ReadText(fid, 80, fmt, b, at, le);
    auxFile := ReadText(fid, 24, fmt, b, at + 80, le);
    orient := ReadInt(fid, Int8, fmt, b, at + 104, le);
    originator := ReadInts(fid, 5, Int16, fmt, b, at + 105, le);
  }

  /** The next 53 bytes: generated, scannum, patient_id, exp_date, exp_time, hist_un0. */
  method ReadAnalyzeScan(fid: File, fmt: FloatFormat, ghost b: seq<Byte>, ghost at: nat, ghost le: bool)
    returns (generated: string, scannum: string, patientId: string, expDate: string, expTime: string, histUn0: string)
    requires fid.content == Some(b) && fid.offset == at as real && fid.littleEndian == le && at + 53 <= |b|
    modifies fid
    ensures fid.content == Some(b) && fid.littleEndian == le && fid.offset == (at + 53) as real
    ensures generated == TextAt(b, at, 10) && scannum == TextAt(b, at + 10, 10) && patientId == TextAt(b, at + 20, 10)
    ensures expDate == TextAt(b, at + 30, 10) && expTime == TextAt(b, at + 40, 10) && histUn0 == TextAt(b, at + 50, 3)
  {
    generated := ReadText(fid, 10, fmt, b, at, le);
    scannum := ReadText(fid, 10, fmt, b, at + 10, le);
    patientId := ReadText(fid, 10, fmt, b, at + 20, le);
    expDate := ReadText(fid, 10, fmt, b, at + 30, le);
    expTime := ReadText(fid, 10, fmt, b, at + 40, le);
    histUn0 := ReadText(fid, 3, fmt, b, at + 50, le);
  }

  /** The last 32 bytes: views, vols_added, start_field, field_skip, omax, omin, smax, smin. */
  method ReadAnalyzeCounts(fid: File, fmt: FloatFormat, ghost b: seq<Byte>, ghost at: nat, ghost le: bool)
    returns (views: int, volsAdded: int, startField: int, fieldSkip: int, omax: int, omin: int, smax: int, smin: int)
    requires fid.content == Some(b) && fid.offset == at as real && fid.littleEndian == le && at + 32 <= |b|
    modifies fid
    ensures fid.content == Some(b) && fid.littleEndian == le && fid.offset == (at + 32) as real
    ensures views == IntAt(b, at, le, Int32) && volsAdded == IntAt(b, at + 4, le, Int32)
    ensures startField == IntAt(b, at + 8, le, Int32) && fieldSkip == IntAt(b, at + 12, le, Int32)
    ensures omax == IntAt(b, at + 16, le, Int32) && omin == IntAt(b, at + 20, le, Int32)
    ensures smax == IntAt(b, at + 24, le, Int32) && smin == IntAt(b, at + 28, le, Int32)
  {
    views := ReadInt(fid, Int32, fmt, b, at, le);
    volsAdded := ReadInt(fid, Int32, fmt, b, at + 4, le);
    startField := ReadInt(fid, Int32, fmt, b, at + 8, le);
    fieldSkip := ReadInt(fid, Int32, fmt, b, at + 12, le);
    omax := ReadInt(fid, Int32, fmt, b, at + 16, le);
    omin := ReadInt(fid, Int32, fmt, b, at + 20, le);
    smax := ReadInt(fid, Int32, fmt, b, at + 24, le);
    smin := ReadInt(fid, Int32, fmt, b, at + 28, le);
  }

  /** The 200 bytes of an Analyze data_history block that lies in the buffer. */
  method ReadAnalyzeHistoryIn(fid: File, fmt: FloatFormat, ghost b: seq<Byte>, ghost at: nat, ghost le: bool) returns (h: AnalyzeHistory)
    requires fid.content == Some(b) && fid.offset == at as real && fid.littleEndian == le && at + DataHistorySize <= |b|
    modifies fid
    ensures fid.content == Some(b) && fid.littleEndian == le && fid.offset == (at + DataHistorySize) as real
    ensures h == AnalyzeHistoryOf(b, at, le)
  {
    var descrip, auxFile, orient, originator := ReadAnalyzeIdentity(fid, fmt, b, at, le);
    var generated, scannum, patientId, expDate, expTime, histUn0 := ReadAnalyzeScan(fid, fmt, b, at + 115, le);
    var views, volsAdded, startField, fieldSkip, omax, omin, smax, smin := ReadAnalyzeCounts(fid, fmt, b, at + 168, le);
    h := AnalyzeHistory(
      descrip, auxFile, orient, originator, generated, scannum, patientId, expDate, expTime, histUn0,
      views, volsAdded, startField, fieldSkip, omax, omin, smax, smin);
  }

  /** `data_history(fid)` of the Analyze reader: the 200-byte block at the cursor. */
  method ReadAnalyzeHistory(fid: File, fmt: FloatFormat, ghost at: int) returns (r: Outcome<AnalyzeHistory>)
    requires fid.offset == at as real
    modifies fid
    ensures fid.content == old(fid.content) && fid.littleEndian == old(fid.littleEndian)
    ensures r == AnalyzeHistoryAt(old(fid.content), at, fid.littleEndian)
    ensures r.Ok? ==> fid.offset == (at + DataHistorySize) as real
  {
    var start := fid.offset.Floor;
    var failure := Access(fid.content, start, DataHistorySize);
    if failure.Some? {
      return Err(failure.value);
    }
    var h := ReadAnalyzeHistoryIn(fid, fmt, fid.content.value, start, fid.littleEndian);
    return Ok(h);
  }

  /** `read_header(fid)` of the Analyze reader: the three blocks from byte 0, with no guard on any field. */
  method ReadAnalyzeHeader(fid: File, fmt: FloatFormat) returns (r: Outcome<AnalyzeHeader>)
    modifies fid
    ensures fid.content == old(fid.content) && fid.littleEndian == old(fid.littleEndian)
    ensures r == AnalyzeHeaderAt(old(fid.content), fid.littleEndian, fmt)
    ensures r.Ok? ==> fid.offset == SizeofHdr as real
  {
    var hk :- ReadHeaderKey(fid, fmt);
    var dime :- ReadAnalyzeDimension(fid, fmt, HeaderKeySize);
    var hist :- ReadAnalyzeHistory(fid, fmt, HeaderKeySize + ImageDimensionSize);
    return Ok(AnalyzeHeader(hk, dime, hist));
  }

  /**
   * `load_untouch0_nii_hdr(machine, data)`: a cursor in the byte order
   * `machine` names, over `data`, read from byte 0. The extra argument the
   * source passes to read_header is not a parameter of it.
   */
  method LoadUntouch0NiiHdr(machine: string, data: seq<Byte>, fmt: FloatFormat) returns (r: Outcome<AnalyzeHeader>)
    ensures r == AnalyzeHeaderAt(Some(data), machine == "ieee-le", fmt)
  {
    var fid := new File("", machine);
    fid.Fopen(data);
    fid.Frewind();
    r := ReadAnalyzeHeader(fid, fmt);
  }

  // ----- what the Analyze reader promises -----

  /** The header is read exactly when the buffer holds all 348 bytes; sizeof_hdr itself is not checked. */
  lemma AnalyzeExtent(b: seq<Byte>, le: bool, fmt: FloatFormat)
    ensures AnalyzeHeaderAt(Some(b), le, fmt).Ok? <==> |b| >= SizeofHdr
    ensures AnalyzeHeaderAt(Some(b), le, fmt).Err? ==> AnalyzeHeaderAt(Some(b), le, fmt).error == RangeError
  {
  }

  /**
   * The Analyze fields land at the byte positions of dbh.h: datatype at 70,
   * pixdim at 76, vox_offset at 108, glmax at 140, orient (a signed byte)
   * at 252 and the originator at 253.
   */
  lemma AnalyzeOffsets(b: seq<Byte>, le: bool, fmt: FloatFormat)
    requires |b| >= SizeofHdr
    ensures var h := AnalyzeHeaderAt(Some(b), le, fmt).value;
      h.dime.datatypeCode == IntAt(b, 70, le, Int16) &&
      h.dime.pixdim == RealsAt(b, 76, 8, le, Float32, fmt) &&
      h.dime.voxOffset == RealAt(b, 108, le, Float32, fmt) &&
      h.dime.glmax == IntAt(b, 140, le, Int32) &&
      h.hist.orient == IntAt(b, 252, le, Int8) &&
      -128 <= h.hist.orient < 128 &&
      h.hist.originator == IntsAt(b, OriginatorAt, 5, le, Int16)
  {
    var at := 252;
    LittleEndianBound(b[at..at + 1]);
    SignedRange(LittleEndian(b[at..at + 1]), 1);
  }

  /**
   * On the same bytes, the Analyze reader and the NIfTI-1 reader agree on
   * sizeof_hdr, dim, datatype, bitpix, pixdim, vox_offset, glmax and
   * glmin, and the Analyze originator is the one the NIfTI-1 reader seeks
   * back to 253 for.
   */
  lemma SharedFields(b: seq<Byte>, le: bool, fmt: FloatFormat)
    requires |b| >= SizeofHdr
    ensures var a := AnalyzeHeaderAt(Some(b), le, fmt).value;
      var n := HeaderAt(Some(b), le, fmt).value;
      a.hk == n.hk && a.dime.dim == n.dime.dim && a.dime.datatypeCode == n.dime.datatypeCode &&
      a.dime.bitpix == n.dime.bitpix && a.dime.pixdim == n.dime.pixdim && a.dime.voxOffset == n.dime.voxOffset &&
      a.dime.glmax == n.dime.glmax && a.dime.glmin == n.dime.glmin &&
      a.hist.originator == n.hist.originator && a.hist.descrip == n.hist.descrip
  {
  }
}
