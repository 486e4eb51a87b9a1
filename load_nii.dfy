// load_nii: the header, the image and the transform into RAS orientation,
// one after the other, each step's error ending the load.

module NiftiLoad {
  import opened JsValues
  import opened Bytes
  import opened Matlab
  import opened NiftiImage
  import opened UntouchLoader
  import NiftiHeader
  import NiftiLoader
  import XformNii
  import MatlabMatrix

  const UsageMessage := "Usage: nii = load_nii(filename, data, [img_idx], [dim5_idx], [dim6_idx], [dim7_idx], [old_RGB], [tolerance], [preferredForm])"

  /** The fields of hdr.dime that read_image reads and writes. */
  function DimeOf(d: NiftiHeader.ImageDimension): Dime8
    requires |d.dim| == 8
  {
    ImageDime(d.datatypeCode, d.bitpix, d.dim, d.voxOffset, d.glmax as real, d.glmin as real)
  }

  /**
   * The header load_nii_img hands back: bitpix and dim as read_image left
   * them. glmax and glmin, which read_image sets to the range of the
   * values read, are carried beside it.
   */
  function WithImage(h: NiftiHeader.Header, d: Dime8): NiftiHeader.Header
  {
    h.(dime := h.dime.(bitpix := d.bitpix, dim := d.dim))
  }

  /** nii before xform_nii, and the intensity range read_image found. */
  datatype Read = Read(nii: XformNii.Nii, glmax: real, glmin: real)

  /** load_nii up to xform_nii: load_nii_hdr, then load_nii_img. */
  function LoadRead(filename: string, data: seq<Byte>, ls: Lists, oldRgb: bool, fmt: FloatFormat,
                    normalise: (Value, real, real) -> Value): (r: Outcome<Read>)
  {
    if filename == "" then Err(Thrown(UsageMessage))
    else
      var h :- NiftiHeader.LoadNiiHdrSpec(filename, data, fmt);
      if |h.hdr.dime.dim| != 8 then Err(RangeError)
      else
        var dime := DimeOf(h.hdr.dime);
        var _ :- ArgsChecked(h.filetype, h.fileprefix, h.machine, dime.dim, ls, []);
        var img :- NiftiLoader.ReadNii(dime, h.filetype, Source(data, h.machine == "ieee-le", fmt), ls, oldRgb, normalise);
        Ok(Read(XformNii.Nii(WithImage(h.hdr, img.1), h.filetype, h.fileprefix, h.machine, img.0),
                img.1.glmax, img.1.glmin))
  }

  /** A header that loads has the eight dims, the eight pixdims and the five originator entries. */
  lemma HeaderLengths(filename: string, data: seq<Byte>, fmt: FloatFormat)
    requires NiftiHeader.LoadNiiHdrSpec(filename, data, fmt).Ok?
    ensures XformNii.Loaded(NiftiHeader.LoadNiiHdrSpec(filename, data, fmt).value.hdr)
  {
    NiftiHeader.LoadedByteOrder(filename, data, fmt);
  }

  /** read_image keeps the datatype of the header it is given. */
  lemma ReadKeepsDatatype(dime: Dime8, filetype: int, src: Source, ls: Lists, oldRgb: bool,
                          normalise: (Value, real, real) -> Value)
    requires NiftiLoader.ReadNii(dime, filetype, src, ls, oldRgb, normalise).Ok?
    ensures NiftiLoader.ReadNii(dime, filetype, src, ls, oldRgb, normalise).value.1.datatypeCode == dime.datatypeCode
  {
    var vx := NiftiLoader.ReadNiiSpec(dime, filetype, src, ls).value;
    assert vx.dime.datatypeCode == dime.datatypeCode;
  }

  /**
   * What load_nii reads before the transform: an Analyze file (filetype
   * 0) never gets there, because load_nii_img takes its filetype for a
   * missing argument; the header keeps its lengths; and the datatype is
   * one of the eight plain numeric ones.
   */
  lemma ReadFacts(filename: string, data: seq<Byte>, ls: Lists, oldRgb: bool, fmt: FloatFormat,
                  normalise: (Value, real, real) -> Value)
    requires LoadRead(filename, data, ls, oldRgb, fmt, normalise).Ok?
    ensures var n := LoadRead(filename, data, ls, oldRgb, fmt, normalise).value.nii;
      n.filetype in {1, 2} && XformNii.Loaded(n.hdr) && XformNii.PlainType(n.hdr.dime.datatypeCode)
  {
    var h := NiftiHeader.LoadNiiHdrSpec(filename, data, fmt).value;
    HeaderLengths(filename, data, fmt);
    var dime := DimeOf(h.hdr.dime);
    var src := Source(data, h.machine == "ieee-le", fmt);
    NiftiLoader.LoadableTypes(dime, h.filetype, src, ls, oldRgb, normalise);
    ReadKeepsDatatype(dime, h.filetype, src, ls, oldRgb, normalise);
  }

  /**
   * xform_nii keeps a plain datatype plain: the scaling step only ever
   * turns it into float32 or float64.
   */
  lemma XformKeepsPlain(nii: XformNii.Nii, preferred: string, affine: MatlabMatrix.Matrix)
    requires XformNii.Loaded(nii.hdr) && MatlabMatrix.IsMatrix(affine, 3, 3) && XformNii.PlainType(nii.hdr.dime.datatypeCode)
    ensures var p := XformNii.XformPrepared(nii, preferred, affine);
      p.Ok? ==> XformNii.PlainType(p.value.nii.hdr.dime.datatypeCode)
  {
    XformNii.ScaledFacts(nii.hdr.dime, nii.img);
  }

  /** What load_nii returns: nii after xform_nii, and the intensity range of the image read. */
  datatype Loaded = Loaded(nii: XformNii.Transformed, glmax: real, glmin: real)

  function NiiOf(r: Outcome<Loaded>): Outcome<XformNii.Transformed>
  {
    if r.Err? then Err(r.error) else Ok(r.value.nii)
  }

  /**
   * `load_nii(filename, data, img_idx, dim5_idx, dim6_idx, dim7_idx,
   * old_RGB, tolerance, preferredForm)`. The header extension is not
   * read. `affine` is the 3-by-3 matrix R that change_hdr builds from
   * the chosen form; the 4-D `pattern` path of the rotation step is not
   * part of this model, so a rotated image has at most three dimensions.
   */
  method LoadNii(filename: string, data: seq<Byte>, ls: Lists, oldRgb: bool, preferred: string, affine: MatlabMatrix.Matrix,
                 fmt: FloatFormat, normalise: (Value, real, real) -> Value)
    returns (r: Outcome<Loaded>)
    requires MatlabMatrix.IsMatrix(affine, 3, 3)
    requires var read := LoadRead(filename, data, ls, oldRgb, fmt, normalise);
      read.Ok? && XformNii.Loaded(read.value.nii.hdr) &&
      XformNii.XformPrepared(read.value.nii, preferred, affine).Ok? &&
      XformNii.XformPrepared(read.value.nii, preferred, affine).value.rotate ==>
        Ndims(read.value.nii.img) <= 3
    ensures var read := LoadRead(filename, data, ls, oldRgb, fmt, normalise);
      (read.Err? ==> r == Err(read.error)) &&
      (read.Ok? && XformNii.Loaded(read.value.nii.hdr) ==>
        var p := XformNii.XformPrepared(read.value.nii, preferred, affine);
        (p.Err? ==> r == Err(p.error)) &&
        (p.Ok? ==> XformNii.XformOutcome(p.value, NiiOf(r)) &&
                   (r.Ok? ==> r.value.glmax == read.value.glmax && r.value.glmin == read.value.glmin)))
  {
    if filename == "" {
      return Err(Thrown(UsageMessage));
    }
    var h := NiftiHeader.LoadNiiHdr(filename, data, fmt);
    if h.Err? {
      return Err(h.error);
    }
    HeaderLengths(filename, data, fmt);
    var dime := DimeOf(h.value.hdr.dime);
    var img := NiftiLoader.LoadNiiImg(dime, h.value.filetype, h.value.fileprefix, h.value.machine, data,
                                      ls, oldRgb, fmt, normalise);
    if img.Err? {
      return Err(img.error);
    }
    var nii := XformNii.Nii(WithImage(h.value.hdr, img.value.1), h.value.filetype, h.value.fileprefix,
                            h.value.machine, img.value.0);
    ReadFacts(filename, data, ls, oldRgb, fmt, normalise);
    XformKeepsPlain(nii, preferred, affine);
    var x := XformNii.XformNii(nii, preferred, affine);
    if x.Err? {
      return Err(x.error);
    }
    r := Ok(Loaded(x.value, img.value.1.glmax, img.value.1.glmin));
  }
}
